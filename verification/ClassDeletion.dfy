/** Removing a user from classes, so that the trashbin says how to put the user back. */
module ClassDeletion {
  import opened Sequences

  type Id = string

  datatype Class = Class(id: Id, userIds: seq<Id>, teacherIds: seq<Id>)

  /** How a user takes part in one class. */
  datatype Membership = Membership(id: Id, student: bool, teacher: bool)

  datatype ClassIds = ClassIds(student: seq<Id>, teacher: seq<Id>)

  /** What is kept for the trashbin; nothing is recorded when the user is in no class. */
  datatype TrashData = NoClasses | InClasses(classIds: ClassIds)

  predicate IsMember(c: Class, userId: Id) {
    userId in c.teacherIds || userId in c.userIds
  }

  function MemberTest(userId: Id): Class -> bool {
    (c: Class) => IsMember(c, userId)
  }

  function ProjectionFor(userId: Id): Class -> Membership {
    (c: Class) => Membership(c.id, userId in c.userIds, userId in c.teacherIds)
  }

  function MembershipsOf(classes: seq<Class>, userId: Id): seq<Membership> {
    Map(ProjectionFor(userId), Filter(MemberTest(userId), classes))
  }

  predicate IsStudent(m: Membership) {
    m.student
  }

  predicate IsTeacher(m: Membership) {
    m.teacher
  }

  function IdOf(m: Membership): Id {
    m.id
  }

  function ToClassIds(memberships: seq<Membership>): ClassIds {
    ClassIds(Map(IdOf, Filter(IsStudent, memberships)), Map(IdOf, Filter(IsTeacher, memberships)))
  }

  function OtherThan(userId: Id): Id -> bool {
    (x: Id) => x != userId
  }

  function Pull(ids: seq<Id>, userId: Id): seq<Id> {
    Filter(OtherThan(userId), ids)
  }

  /** The update applied to every class that matches the filter. */
  function PulledFrom(c: Class, userId: Id): Class {
    if IsMember(c, userId) then c.(teacherIds := Pull(c.teacherIds, userId), userIds := Pull(c.userIds, userId)) else c
  }

  class ClassStore {
    var classes: seq<Class>

    method GetClassesForUser(userId: Id) returns (memberships: seq<Membership>)
      ensures memberships == MembershipsOf(classes, userId)
    {
      memberships := MembershipsOf(classes, userId);
    }

    method RemoveUserFromClasses(userId: Id)
      modifies this
      ensures |classes| == |old(classes)|
      ensures forall i :: 0 <= i < |classes| ==> classes[i] == PulledFrom(old(classes)[i], userId)
    {
      for i := 0 to |classes|
        invariant |classes| == |old(classes)|
        invariant forall k :: 0 <= k < |classes| ==>
                    classes[k] == if k < i then PulledFrom(old(classes)[k], userId) else old(classes)[k]
      {
        classes := classes[i := PulledFrom(classes[i], userId)];
      }
    }

    method DeleteUserDataFromClasses(userId: Id) returns (data: TrashData)
      modifies this
      ensures |classes| == |old(classes)|
      ensures forall i :: 0 <= i < |classes| ==> classes[i] == PulledFrom(old(classes)[i], userId)
      ensures data == TrashOf(old(classes), userId)
    {
      var memberships := GetClassesForUser(userId);
      FilterMembers(MemberTest(userId), classes);
      assert forall i :: 0 <= i < |classes| && IsMember(classes[i], userId) ==> classes[i] in Filter(MemberTest(userId), classes);
      data := NoClasses;
      if |memberships| != 0 {
        assert Filter(MemberTest(userId), classes)[0] in Filter(MemberTest(userId), classes);
        data := InClasses(ToClassIds(memberships));
        RemoveUserFromClasses(userId);
      }
    }
  }

  /** The students and teachers of a class after the user has been put back from the trashbin. */
  function RestoredStudents(c: Class, data: TrashData, userId: Id): set<Id> {
    (set x | x in c.userIds) + if data.InClasses? && c.id in data.classIds.student then {userId} else {}
  }

  function RestoredTeachers(c: Class, data: TrashData, userId: Id): set<Id> {
    (set x | x in c.teacherIds) + if data.InClasses? && c.id in data.classIds.teacher then {userId} else {}
  }

  ghost predicate UniqueClassIds(classes: seq<Class>) {
    forall a, b :: a in classes && b in classes && a.id == b.id ==> a == b
  }

  function TrashOf(classes: seq<Class>, userId: Id): TrashData {
    if forall i :: 0 <= i < |classes| ==> !IsMember(classes[i], userId) then NoClasses
    else InClasses(ToClassIds(MembershipsOf(classes, userId)))
  }

  lemma {:induction false} MapMembers<T, R>(f: T -> R, s: seq<T>)
    ensures forall x :: x in s ==> f(x) in Map(f, s)
    ensures forall y :: y in Map(f, s) ==> exists x :: x in s && f(x) == y
  {
  }

  lemma MembershipIn(classes: seq<Class>, userId: Id, m: Membership)
    ensures m in MembershipsOf(classes, userId) <==>
              exists c :: c in classes && IsMember(c, userId) && ProjectionFor(userId)(c) == m
  {
    FilterMembers(MemberTest(userId), classes);
    MapMembers(ProjectionFor(userId), Filter(MemberTest(userId), classes));
  }

  lemma ClassIdsOf(ms: seq<Membership>, id: Id)
    ensures id in ToClassIds(ms).student <==> exists m :: m in ms && m.student && m.id == id
    ensures id in ToClassIds(ms).teacher <==> exists m :: m in ms && m.teacher && m.id == id
  {
    FilterMembers(IsStudent, ms);
    FilterMembers(IsTeacher, ms);
    MapMembers(IdOf, Filter(IsStudent, ms));
    MapMembers(IdOf, Filter(IsTeacher, ms));
  }

  /** Nothing is recorded exactly when no class has the user as student or teacher. */
  lemma NothingIsRecordedIff(classes: seq<Class>, userId: Id)
    ensures TrashOf(classes, userId) == NoClasses <==>
            forall c :: c in classes ==> userId !in c.userIds && userId !in c.teacherIds
  {
    assert (forall i :: 0 <= i < |classes| ==> !IsMember(classes[i], userId)) <==> forall c :: c in classes ==> !IsMember(c, userId);
  }

  lemma TrashNamesTheClasses(classes: seq<Class>, userId: Id, c: Class)
    requires UniqueClassIds(classes) && c in classes
    ensures var data := TrashOf(classes, userId);
            && (userId in c.userIds <==> data.InClasses? && c.id in data.classIds.student)
            && (userId in c.teacherIds <==> data.InClasses? && c.id in data.classIds.teacher)
  {
    var ms := MembershipsOf(classes, userId);
    var own := ProjectionFor(userId)(c);
    ClassIdsOf(ms, c.id);
    MembershipIn(classes, userId, own);
    forall m | m in ms && m.id == c.id ensures m == own && IsMember(c, userId) {
      MembershipIn(classes, userId, m);
    }
    hide MembershipsOf, ToClassIds;
  }

  /**
   After the step no class mentions the user, nobody else has left a class, and putting the user back
   from the trashbin restores the students and the teachers of every class.
   */
  lemma RemovalIsCompleteAndReversible(classes: seq<Class>, userId: Id, c: Class)
    requires UniqueClassIds(classes) && c in classes
    ensures var after, data := PulledFrom(c, userId), TrashOf(classes, userId);
            && !IsMember(after, userId)
            && (forall x :: x != userId ==> (x in after.userIds <==> x in c.userIds) && (x in after.teacherIds <==> x in c.teacherIds))
            && RestoredStudents(after, data, userId) == (set x | x in c.userIds)
            && RestoredTeachers(after, data, userId) == (set x | x in c.teacherIds)
  {
    TrashNamesTheClasses(classes, userId, c);
    FilterMembers(OtherThan(userId), c.userIds);
    FilterMembers(OtherThan(userId), c.teacherIds);
  }
}
