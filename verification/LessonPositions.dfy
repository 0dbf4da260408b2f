/** Numbering the lessons of every course and course group. */
module LessonPositions {
  import opened Wrappers
  import opened Sequences

  type Id = string

  /** A reference as a lesson stores it; a missing one and a null one are different keys. */
  datatype Ref = Missing | Null | To(id: Id)

  datatype Lesson = Lesson(id: Id, courseId: Ref, courseGroupId: Ref, position: Option<int>, createdAt: int)

  datatype Task = Task(id: Id, isModified: bool, position: int)

  datatype TreeKey = ByCourse | ByCourseGroup

  function KeyOf(l: Lesson, key: TreeKey): Ref {
    match key
    case ByCourse => l.courseId
    case ByCourseGroup => l.courseGroupId
  }

  function HasKey(key: TreeKey, k: Ref): Lesson -> bool {
    (l: Lesson) => KeyOf(l, key) == k
  }

  /** Lessons without position come first; equal positions are ordered by age. */
  predicate Before(a: Lesson, b: Lesson) {
    if a.position == b.position then a.createdAt <= b.createdAt
    else a.position.None? || (b.position.Some? && a.position.value < b.position.value)
  }

  ghost predicate Sorted(lessons: seq<Lesson>) {
    forall i, j :: 0 <= i < j < |lessons| ==> Before(lessons[i], lessons[j])
  }

  ghost predicate UniqueIds(lessons: seq<Lesson>) {
    forall i, j :: 0 <= i < j < |lessons| ==> lessons[i].id != lessons[j].id
  }

  /** What a sorted query of the lessons can return. */
  ghost predicate Lists(sorted: seq<Lesson>, lessons: seq<Lesson>) {
    Sorted(sorted) && UniqueIds(sorted) && forall l :: l in sorted <==> l in lessons
  }

  // ---- what the numbering is to do ----

  /** The lessons of the same course, or of the same course group if there is no course. */
  function PeerOf(l: Lesson): Lesson -> bool {
    (m: Lesson) => m.courseId == l.courseId && (l.courseId.Missing? ==> m.courseGroupId == l.courseGroupId)
  }

  function Peers(sorted: seq<Lesson>, l: Lesson): seq<Lesson> {
    Filter(PeerOf(l), sorted)
  }

  /** How many lessons come before the one with the id. */
  function Rank(lessons: seq<Lesson>, id: Id): nat {
    if lessons == [] || lessons[0].id == id then 0 else 1 + Rank(lessons[1..], id)
  }

  /** A course group has the key of the course, and its lessons replace those of the course. */
  ghost predicate IsReplaced(sorted: seq<Lesson>, l: Lesson) {
    !l.courseId.Missing? && exists m :: m in sorted && m.courseId.Missing? && m.courseGroupId == l.courseId
  }

  ghost function Placed(sorted: seq<Lesson>, l: Lesson): Lesson {
    if IsReplaced(sorted, l) then l else l.(position := Some(Rank(Peers(sorted, l), l.id)))
  }

  // ---- trees and tasks ----

  /** The lessons grouped by a key. */
  ghost predicate IsTree(tree: map<Ref, seq<Lesson>>, lessons: seq<Lesson>, key: TreeKey) {
    && (forall l :: l in lessons ==> KeyOf(l, key) in tree)
    && (forall k :: k in tree ==> tree[k] != [] && tree[k] == Filter(HasKey(key, k), lessons))
  }

  function Grown(tree: map<Ref, seq<Lesson>>, k: Ref, l: Lesson): map<Ref, seq<Lesson>> {
    tree[k := (if k in tree then tree[k] else []) + [l]]
  }

  method CreateDataTree(lessons: seq<Lesson>, key: TreeKey) returns (tree: map<Ref, seq<Lesson>>)
    ensures IsTree(tree, lessons, key)
  {
    tree := map[];
    EmptyTree(key);
    hide IsTree, KeyOf;
    for i := 0 to |lessons|
      invariant IsTree(tree, lessons[..i], key)
    {
      var id := KeyOf(lessons[i], key);
      assert lessons[..i + 1] == lessons[..i] + [lessons[i]];
      TreeOneMore(tree, lessons[..i], key, lessons[i]);
      GrownInTwo(tree, id, lessons[i]);
      if id !in tree {
        tree := tree[id := []];
      }
      tree := tree[id := tree[id] + [lessons[i]]];
    }
    assert lessons[..|lessons|] == lessons;
  }

  lemma EmptyTree(key: TreeKey)
    ensures IsTree(map[], [], key)
  {
  }

  lemma GrownInTwo(tree: map<Ref, seq<Lesson>>, k: Ref, l: Lesson)
    ensures k !in tree ==> tree[k := []][k := [] + [l]] == Grown(tree, k, l)
  {
  }

  lemma {:induction false} FilterOneMore<T>(keep: T -> bool, s: seq<T>, x: T)
    ensures Filter(keep, s + [x]) == Filter(keep, s) + if keep(x) then [x] else []
  {
    FilterAppend(keep, s, [x]);
  }

  lemma {:induction false} GrownAt(tree: map<Ref, seq<Lesson>>, lessons: seq<Lesson>, key: TreeKey, l: Lesson, k: Ref)
    requires IsTree(tree, lessons, key) && k in Grown(tree, KeyOf(l, key), l)
    ensures Grown(tree, KeyOf(l, key), l)[k] == Filter(HasKey(key, k), lessons + [l])
  {
    FilterOneMore(HasKey(key, k), lessons, l);
    if k !in tree {
      FilterNone(HasKey(key, k), lessons);
    }
    hide Filter;
  }

  lemma TreeOneMore(tree: map<Ref, seq<Lesson>>, lessons: seq<Lesson>, key: TreeKey, l: Lesson)
    requires IsTree(tree, lessons, key)
    ensures IsTree(Grown(tree, KeyOf(l, key), l), lessons + [l], key)
  {
    hide Filter, KeyOf;
    forall k | k in Grown(tree, KeyOf(l, key), l)
      ensures Grown(tree, KeyOf(l, key), l)[k] == Filter(HasKey(key, k), lessons + [l])
    {
      GrownAt(tree, lessons, key, l, k);
    }
  }

  function TaskFor(l: Lesson, index: nat): Task {
    Task(l.id, l.position != Some(index), index)
  }

  function TasksFor(lessons: seq<Lesson>): (tasks: seq<Task>)
    ensures |tasks| == |lessons|
    ensures forall i :: 0 <= i < |lessons| ==> tasks[i] == TaskFor(lessons[i], i)
  {
    seq(|lessons|, i requires 0 <= i < |lessons| => TaskFor(lessons[i], i))
  }

  ghost predicate DistinctTasks(tasks: seq<Task>) {
    forall i, j :: 0 <= i < j < |tasks| ==> tasks[i].id != tasks[j].id
  }

  /** No lesson stands twice in the tree. */
  ghost predicate DistinctTree(tree: map<Ref, seq<Lesson>>) {
    && (forall k :: k in tree ==> UniqueIds(tree[k]))
    && (forall k, j, l, m :: k in tree && j in tree && k != j && l in tree[k] && m in tree[j] ==> l.id != m.id)
  }

  ghost predicate IsTaskOf(tree: map<Ref, seq<Lesson>>, keys: set<Ref>, t: Task) {
    exists k :: k in keys && k in tree && t in TasksFor(tree[k])
  }

  /** One task for each lesson of the tree, with its place in its list. */
  method CreateDatabaseTask(tree: map<Ref, seq<Lesson>>) returns (tasks: seq<Task>)
    requires DistinctTree(tree)
    ensures forall t :: t in tasks <==> IsTaskOf(tree, tree.Keys, t)
    ensures DistinctTasks(tasks)
  {
    tasks := [];
    var remaining := tree.Keys;
    hide DistinctTree, IsTaskOf;
    forall t ensures !IsTaskOf(tree, {}, t) {
      NoKeysNoTasks(tree, t);
    }
    assert tree.Keys - remaining == {};
    while remaining != {}
      invariant remaining <= tree.Keys
      invariant forall t :: t in tasks <==> IsTaskOf(tree, tree.Keys - remaining, t)
      invariant DistinctTasks(tasks)
      decreases |remaining|
    {
      var k :| k in remaining;
      var before := tasks;
      for index := 0 to |tree[k]|
        invariant tasks == before + TasksFor(tree[k])[..index]
      {
        tasks := tasks + [TaskFor(tree[k][index], index)];
      }
      assert tasks == before + TasksFor(tree[k]);
      MoreTasks(tree, tree.Keys - remaining, before, k);
      assert tree.Keys - (remaining - {k}) == tree.Keys - remaining + {k};
      remaining := remaining - {k};
    }
    assert tree.Keys - remaining == tree.Keys;
  }

  lemma NoKeysNoTasks(tree: map<Ref, seq<Lesson>>, t: Task)
    ensures !IsTaskOf(tree, {}, t)
  {
  }

  lemma MoreTasks(tree: map<Ref, seq<Lesson>>, done: set<Ref>, tasks: seq<Task>, k: Ref)
    requires DistinctTree(tree) && done <= tree.Keys && k in tree && k !in done && DistinctTasks(tasks)
    requires forall t :: t in tasks <==> IsTaskOf(tree, done, t)
    ensures forall t :: t in tasks + TasksFor(tree[k]) <==> IsTaskOf(tree, done + {k}, t)
    ensures DistinctTasks(tasks + TasksFor(tree[k]))
  {
    var more := TasksFor(tree[k]);
    forall t ensures IsTaskOf(tree, done + {k}, t) <==> IsTaskOf(tree, done, t) || t in more {
      OneMoreKey(tree, done, k, t);
    }
    forall i, j | 0 <= i < |tasks| && 0 <= j < |more| ensures tasks[i].id != more[j].id {
      assert tasks[i] in tasks;
      OtherKeyOtherId(tree, done, k, tasks[i], j);
    }
    assert DistinctTasks(more);
    hide IsTaskOf, DistinctTree, TasksFor;
  }

  lemma OneMoreKey(tree: map<Ref, seq<Lesson>>, done: set<Ref>, k: Ref, t: Task)
    requires k in tree
    ensures IsTaskOf(tree, done + {k}, t) <==> IsTaskOf(tree, done, t) || t in TasksFor(tree[k])
  {
  }

  lemma OtherKeyOtherId(tree: map<Ref, seq<Lesson>>, done: set<Ref>, k: Ref, t: Task, j: nat)
    requires DistinctTree(tree) && k in tree && k !in done && IsTaskOf(tree, done, t) && j < |tree[k]|
    ensures t.id != TasksFor(tree[k])[j].id
  {
  }

  class LessonStore {
    var lessons: seq<Lesson>
    /** The ids logged as modified and as failed. */
    var modified: seq<Id>
    var failed: seq<Id>

    constructor (lessons: seq<Lesson>)
      ensures this.lessons == lessons && modified == [] && failed == []
    {
      this.lessons, this.modified, this.failed := lessons, [], [];
    }

    method UpdateOne(id: Id, position: int)
      requires UniqueIds(lessons)
      modifies this`lessons
      ensures UniqueIds(lessons) && |lessons| == |old(lessons)|
      ensures forall i :: 0 <= i < |lessons| ==>
                lessons[i] == if old(lessons)[i].id == id then old(lessons)[i].(position := Some(position)) else old(lessons)[i]
    {
      for i := 0 to |lessons|
        invariant lessons == old(lessons)
        invariant forall k :: 0 <= k < i ==> lessons[k].id != id
      {
        if lessons[i].id == id {
          lessons := lessons[i := lessons[i].(position := Some(position))];
          return;
        }
      }
    }

    /** A task that changes nothing is skipped; a failing update is logged. */
    method Exec(task: Task, fails: bool)
      requires UniqueIds(lessons)
      modifies this
      ensures UniqueIds(lessons) && |lessons| == |old(lessons)|
      ensures forall i :: 0 <= i < |lessons| ==>
                lessons[i] == if task.isModified && !fails && old(lessons)[i].id == task.id
                              then old(lessons)[i].(position := Some(task.position)) else old(lessons)[i]
      ensures modified == old(modified) + if task.isModified && !fails then [task.id] else []
      ensures failed == old(failed) + if task.isModified && fails then [task.id] else []
    {
      if !task.isModified {
        return;
      }
      if fails {
        failed := failed + [task.id];
      } else {
        UpdateOne(task.id, task.position);
        modified := modified + [task.id];
      }
    }

    method ExecAll(tasks: seq<Task>, fails: set<Id>)
      requires UniqueIds(lessons) && modified == [] && failed == []
      requires DistinctTasks(tasks)
      modifies this
      ensures |lessons| == |old(lessons)|
      ensures forall i :: 0 <= i < |lessons| ==> Written(tasks, fails, old(lessons)[i], lessons[i])
      ensures forall id :: id in modified <==> IsModified(tasks, id) && id !in fails
      ensures forall id :: id in failed <==> IsModified(tasks, id) && id in fails
    {
      ghost var start := lessons;
      for k := 0 to |tasks|
        invariant UniqueIds(lessons) && |lessons| == |start|
        invariant forall i :: 0 <= i < |lessons| ==> Written(tasks[..k], fails, start[i], lessons[i])
        invariant forall id :: id in modified <==> IsModified(tasks[..k], id) && id !in fails
        invariant forall id :: id in failed <==> IsModified(tasks[..k], id) && id in fails
      {
        ghost var before := lessons;
        Exec(tasks[k], tasks[k].id in fails);
        assert tasks[..k + 1] == tasks[..k] + [tasks[k]];
        assert forall t :: t in tasks[..k] ==> t.id != tasks[k].id;
        forall i | 0 <= i < |lessons| ensures Written(tasks[..k + 1], fails, start[i], lessons[i]) {
          WrittenOneMore(tasks[..k], tasks[k], fails, start[i], before[i], lessons[i]);
        }
      }
      assert tasks[..|tasks|] == tasks;
    }

    /** `sorted` is what the query returned. */
    method Up(sorted: seq<Lesson>, fails: set<Id>)
      requires UniqueIds(lessons) && Lists(sorted, lessons) && modified == [] && failed == []
      modifies this
      ensures |lessons| == |old(lessons)|
      ensures forall i :: 0 <= i < |lessons| ==>
                lessons[i] == if old(lessons)[i].id in fails then old(lessons)[i] else Placed(sorted, old(lessons)[i])
      ensures forall id :: id in modified <==> IsMoved(sorted, id) && id !in fails
      ensures forall id :: id in failed <==> IsMoved(sorted, id) && id in fails
    {
      ghost var start := lessons;
      var tasks := TasksForLessons(sorted);
      ExecAll(tasks, fails);
      hide TasksMatch, Written, IsReplaced, Sorted;
      forall i | 0 <= i < |lessons|
        ensures lessons[i] == if start[i].id in fails then start[i] else Placed(sorted, start[i])
      {
        assert start[i] in start;
        WrittenIsPlaced(sorted, tasks, fails, start[i], lessons[i]);
      }
      forall id ensures IsModified(tasks, id) <==> IsMoved(sorted, id) {
        LogsTellChanges(sorted, tasks, id);
      }
    }
  }

  /** Courses first, then the course groups of the lessons without a course. */
  method TasksForLessons(sorted: seq<Lesson>) returns (tasks: seq<Task>)
    requires UniqueIds(sorted)
    ensures DistinctTasks(tasks) && TasksMatch(sorted, tasks)
  {
    var courseMap := CreateDataTree(sorted, ByCourse);
    var ungrouped := if Missing in courseMap then courseMap[Missing] else [];
    if Missing !in courseMap {
      FilterNone(HasKey(ByCourse, Missing), sorted);
    }
    var courseGroupMap := CreateDataTree(ungrouped, ByCourseGroup);
    var tree := (courseMap - {Missing}) + courseGroupMap;
    TreeOfPeers(sorted, courseMap, courseGroupMap);
    PeersAreDistinct(sorted, tree);
    tasks := CreateDatabaseTask(tree);
    OneTaskEach(sorted, tree, tasks);
  }

  /** A lesson before and after the tasks have been executed. */
  ghost predicate Written(tasks: seq<Task>, fails: set<Id>, l: Lesson, r: Lesson) {
    && (forall t :: t in tasks && t.id == l.id && t.isModified && t.id !in fails ==> r == l.(position := Some(t.position)))
    && ((forall t :: t in tasks && t.id == l.id ==> !t.isModified || t.id in fails) ==> r == l)
  }

  lemma WrittenOneMore(tasks: seq<Task>, task: Task, fails: set<Id>, l: Lesson, m: Lesson, r: Lesson)
    requires forall t :: t in tasks ==> t.id != task.id
    requires m.id == l.id && Written(tasks, fails, l, m)
    requires r == if task.isModified && task.id !in fails && m.id == task.id then m.(position := Some(task.position)) else m
    ensures Written(tasks + [task], fails, l, r)
  {
  }

  // ---- the tree groups peers ----

  function GroupOf(l: Lesson): Ref {
    if l.courseId.Missing? then l.courseGroupId else l.courseId
  }

  /** A list of the tree is not empty, and its members are one whole group. */
  ghost predicate IsGroup(sorted: seq<Lesson>, k: Ref, group: seq<Lesson>) {
    group != [] && forall m :: m in group ==> m in sorted && !IsReplaced(sorted, m) && group == Peers(sorted, m) && k == GroupOf(m)
  }

  /** Every lesson that is not replaced is in the list of its group. */
  ghost predicate PeerTree(sorted: seq<Lesson>, tree: map<Ref, seq<Lesson>>) {
    && (forall k :: k in tree ==> IsGroup(sorted, k, tree[k]))
    && (forall l :: l in sorted && !IsReplaced(sorted, l) ==> GroupOf(l) in tree && l in tree[GroupOf(l)])
  }

  lemma {:induction false} PeersByCourse(sorted: seq<Lesson>, l: Lesson)
    requires !l.courseId.Missing?
    ensures Peers(sorted, l) == Filter(HasKey(ByCourse, l.courseId), sorted)
  {
    FilterSame(PeerOf(l), HasKey(ByCourse, l.courseId), sorted);
  }

  lemma {:induction false} PeersByGroup(sorted: seq<Lesson>, l: Lesson)
    requires l.courseId.Missing?
    ensures Peers(sorted, l) == Filter(HasKey(ByCourseGroup, l.courseGroupId), Filter(HasKey(ByCourse, Missing), sorted))
  {
    FilterFilter(HasKey(ByCourse, Missing), HasKey(ByCourseGroup, l.courseGroupId), PeerOf(l), sorted);
  }

  /** A course that is no key of a course group. */
  lemma CourseIsGroup(sorted: seq<Lesson>, byCourse: map<Ref, seq<Lesson>>, k: Ref)
    requires IsTree(byCourse, sorted, ByCourse) && k in byCourse && !k.Missing?
    requires forall m :: m in sorted && m.courseId.Missing? ==> m.courseGroupId != k
    ensures IsGroup(sorted, k, byCourse[k])
  {
    FilterMembers(HasKey(ByCourse, k), sorted);
    forall m | m in byCourse[k] ensures byCourse[k] == Peers(sorted, m) {
      PeersByCourse(sorted, m);
    }
  }

  lemma {:induction false} CourseGroupIsGroup(sorted: seq<Lesson>, byGroup: map<Ref, seq<Lesson>>, k: Ref)
    requires IsTree(byGroup, Filter(HasKey(ByCourse, Missing), sorted), ByCourseGroup) && k in byGroup
    ensures IsGroup(sorted, k, byGroup[k])
  {
    var ungrouped := Filter(HasKey(ByCourse, Missing), sorted);
    FilterMembers(HasKey(ByCourse, Missing), sorted);
    FilterMembers(HasKey(ByCourseGroup, k), ungrouped);
    forall m | m in byGroup[k] ensures byGroup[k] == Peers(sorted, m) {
      PeersByGroup(sorted, m);
    }
  }

  lemma CourseGroupKey(byGroup: map<Ref, seq<Lesson>>, ungrouped: seq<Lesson>, k: Ref)
    requires IsTree(byGroup, ungrouped, ByCourseGroup)
    ensures k in byGroup ==> exists m :: m in ungrouped && m.courseGroupId == k
  {
    if k in byGroup {
      FilterMembers(HasKey(ByCourseGroup, k), ungrouped);
      assert byGroup[k][0] in byGroup[k];
    }
  }

  lemma {:induction false} LessonInTree(sorted: seq<Lesson>, byCourse: map<Ref, seq<Lesson>>, byGroup: map<Ref, seq<Lesson>>, l: Lesson)
    requires IsTree(byCourse, sorted, ByCourse)
    requires IsTree(byGroup, Filter(HasKey(ByCourse, Missing), sorted), ByCourseGroup)
    requires l in sorted && !IsReplaced(sorted, l)
    ensures var tree := (byCourse - {Missing}) + byGroup; GroupOf(l) in tree && l in tree[GroupOf(l)]
  {
    var ungrouped := Filter(HasKey(ByCourse, Missing), sorted);
    FilterMembers(HasKey(ByCourse, Missing), sorted);
    if l.courseId.Missing? {
      FilterMembers(HasKey(ByCourseGroup, l.courseGroupId), ungrouped);
    } else {
      FilterMembers(HasKey(ByCourse, l.courseId), sorted);
      CourseGroupKey(byGroup, ungrouped, l.courseId);
    }
  }

  lemma {:induction false} CourseGroupKeys(sorted: seq<Lesson>, byGroup: map<Ref, seq<Lesson>>)
    requires IsTree(byGroup, Filter(HasKey(ByCourse, Missing), sorted), ByCourseGroup)
    ensures forall m :: m in sorted && m.courseId.Missing? ==> m.courseGroupId in byGroup
  {
    FilterMembers(HasKey(ByCourse, Missing), sorted);
  }

  lemma {:induction false} TreeOfPeers(sorted: seq<Lesson>, byCourse: map<Ref, seq<Lesson>>, byGroup: map<Ref, seq<Lesson>>)
    requires IsTree(byCourse, sorted, ByCourse)
    requires IsTree(byGroup, Filter(HasKey(ByCourse, Missing), sorted), ByCourseGroup)
    ensures PeerTree(sorted, (byCourse - {Missing}) + byGroup)
  {
    var tree := (byCourse - {Missing}) + byGroup;
    CourseGroupKeys(sorted, byGroup);
    hide IsGroup, IsReplaced, Filter, IsTree;
    forall k | k in tree ensures IsGroup(sorted, k, tree[k]) {
      if k in byGroup {
        CourseGroupIsGroup(sorted, byGroup, k);
      } else {
        CourseIsGroup(sorted, byCourse, k);
      }
    }
    forall l | l in sorted && !IsReplaced(sorted, l) ensures GroupOf(l) in tree && l in tree[GroupOf(l)] {
      LessonInTree(sorted, byCourse, byGroup, l);
    }
  }

  lemma {:induction false} FilterKeepsUniqueIds(keep: Lesson -> bool, lessons: seq<Lesson>)
    requires UniqueIds(lessons)
    ensures UniqueIds(Filter(keep, lessons))
  {
    if lessons != [] {
      FilterKeepsUniqueIds(keep, lessons[1..]);
      FilterMembers(keep, lessons[1..]);
      assert forall l :: l in lessons[1..] ==> l.id != lessons[0].id;
    }
  }

  lemma SameIdSameLesson(lessons: seq<Lesson>, l: Lesson, m: Lesson)
    requires UniqueIds(lessons) && l in lessons && m in lessons && l.id == m.id
    ensures l == m
  {
  }

  lemma GroupHasUniqueIds(sorted: seq<Lesson>, k: Ref, group: seq<Lesson>)
    requires UniqueIds(sorted) && IsGroup(sorted, k, group)
    ensures UniqueIds(group)
  {
    assert group[0] in group;
    FilterKeepsUniqueIds(PeerOf(group[0]), sorted);
  }

  lemma PeersAreDistinct(sorted: seq<Lesson>, tree: map<Ref, seq<Lesson>>)
    requires UniqueIds(sorted) && PeerTree(sorted, tree)
    ensures DistinctTree(tree)
  {
    forall k | k in tree ensures UniqueIds(tree[k]) {
      GroupHasUniqueIds(sorted, k, tree[k]);
    }
    hide UniqueIds, IsReplaced, Peers;
    forall k, j, l, m | k in tree && j in tree && k != j && l in tree[k] && m in tree[j] ensures l.id != m.id {
      assert IsGroup(sorted, k, tree[k]) && IsGroup(sorted, j, tree[j]);
      if l.id == m.id {
        SameIdSameLesson(sorted, l, m);
      }
    }
  }

  lemma {:induction false} RankAt(lessons: seq<Lesson>, k: nat)
    requires UniqueIds(lessons) && k < |lessons|
    ensures Rank(lessons, lessons[k].id) == k
  {
    if k > 0 {
      assert lessons[0].id != lessons[k].id;
      RankAt(lessons[1..], k - 1);
    }
  }

  function TaskOf(sorted: seq<Lesson>, l: Lesson): Task {
    TaskFor(l, Rank(Peers(sorted, l), l.id))
  }

  ghost predicate TasksMatch(sorted: seq<Lesson>, tasks: seq<Task>) {
    && UniqueIds(sorted)
    && (forall l :: l in sorted && !IsReplaced(sorted, l) ==> TaskOf(sorted, l) in tasks)
    && (forall t :: t in tasks ==> exists l :: l in sorted && !IsReplaced(sorted, l) && t == TaskOf(sorted, l))
  }

  lemma GroupTasks(sorted: seq<Lesson>, k: Ref, group: seq<Lesson>)
    requires UniqueIds(sorted) && IsGroup(sorted, k, group)
    ensures forall i :: 0 <= i < |group| ==> TasksFor(group)[i] == TaskOf(sorted, group[i])
  {
    GroupHasUniqueIds(sorted, k, group);
    forall i | 0 <= i < |group| ensures TasksFor(group)[i] == TaskOf(sorted, group[i]) {
      assert group[i] in group;
      RankAt(group, i);
    }
  }

  lemma OneTaskEach(sorted: seq<Lesson>, tree: map<Ref, seq<Lesson>>, tasks: seq<Task>)
    requires UniqueIds(sorted) && PeerTree(sorted, tree)
    requires forall t :: t in tasks <==> IsTaskOf(tree, tree.Keys, t)
    ensures TasksMatch(sorted, tasks)
  {
    hide IsReplaced, TaskOf, UniqueIds, Peers;
    forall l | l in sorted && !IsReplaced(sorted, l) ensures TaskOf(sorted, l) in tasks {
      var k := GroupOf(l);
      GroupTasks(sorted, k, tree[k]);
      var i :| 0 <= i < |tree[k]| && tree[k][i] == l;
      assert TasksFor(tree[k])[i] in TasksFor(tree[k]);
    }
    forall t | t in tasks ensures exists l :: l in sorted && !IsReplaced(sorted, l) && t == TaskOf(sorted, l) {
      var k :| k in tree && t in TasksFor(tree[k]);
      GroupTasks(sorted, k, tree[k]);
      var i :| 0 <= i < |tree[k]| && TasksFor(tree[k])[i] == t;
      assert tree[k][i] in tree[k];
    }
  }

  lemma WrittenIsPlaced(sorted: seq<Lesson>, tasks: seq<Task>, fails: set<Id>, l: Lesson, r: Lesson)
    requires TasksMatch(sorted, tasks) && l in sorted && Written(tasks, fails, l, r)
    ensures r == if l.id in fails then l else Placed(sorted, l)
  {
  }

  ghost predicate IsModified(tasks: seq<Task>, id: Id) {
    exists t :: t in tasks && t.id == id && t.isModified
  }

  ghost predicate IsMoved(sorted: seq<Lesson>, id: Id) {
    exists l :: l in sorted && l.id == id && Placed(sorted, l) != l
  }

  lemma LogsTellChanges(sorted: seq<Lesson>, tasks: seq<Task>, id: Id)
    requires TasksMatch(sorted, tasks)
    ensures IsModified(tasks, id) <==> IsMoved(sorted, id)
  {
  }

  // ---- what the numbering achieves ----

  /** A lesson gets a task exactly when its course is not replaced by a course group of the same key. */
  lemma TaskIffNotReplaced(sorted: seq<Lesson>, tasks: seq<Task>, l: Lesson)
    requires TasksMatch(sorted, tasks) && l in sorted
    ensures (exists t :: t in tasks && t.id == l.id) <==> !IsReplaced(sorted, l)
  {
  }

  lemma {:induction false} FilterKeepsSorted(keep: Lesson -> bool, lessons: seq<Lesson>)
    requires Sorted(lessons)
    ensures Sorted(Filter(keep, lessons))
  {
    if lessons != [] {
      FilterKeepsSorted(keep, lessons[1..]);
      FilterMembers(keep, lessons[1..]);
      assert forall l :: l in lessons[1..] ==> Before(lessons[0], l);
    }
  }

  lemma PeersOfPeer(sorted: seq<Lesson>, l: Lesson, m: Lesson)
    requires m in Peers(sorted, l)
    ensures m in sorted && PeerOf(l)(m) && Peers(sorted, m) == Peers(sorted, l) && (IsReplaced(sorted, m) <==> IsReplaced(sorted, l))
  {
    FilterMembers(PeerOf(l), sorted);
    FilterSame(PeerOf(l), PeerOf(m), sorted);
  }

  /** The lessons of a course or course group are numbered from 0 in the order of the query. */
  lemma GroupsAreNumbered(sorted: seq<Lesson>, l: Lesson)
    requires UniqueIds(sorted) && Sorted(sorted) && l in sorted && !IsReplaced(sorted, l)
    ensures var group := Peers(sorted, l);
            && l in group && Sorted(group)
            && forall k :: 0 <= k < |group| ==> Placed(sorted, group[k]) == group[k].(position := Some(k))
  {
    var group := Peers(sorted, l);
    FilterMembers(PeerOf(l), sorted);
    FilterKeepsSorted(PeerOf(l), sorted);
    FilterKeepsUniqueIds(PeerOf(l), sorted);
    hide Sorted, IsReplaced, UniqueIds, Filter, Peers;
    forall k | 0 <= k < |group| ensures Placed(sorted, group[k]) == group[k].(position := Some(k)) {
      PeersOfPeer(sorted, l, group[k]);
      RankAt(group, k);
    }
  }

  // ---- a second run ----

  lemma {:induction false} CountIds(lessons: seq<Lesson>)
    requires UniqueIds(lessons)
    ensures |set l | l in lessons :: l.id| == |lessons|
  {
    if lessons != [] {
      CountIds(lessons[1..]);
      var rest := set l | l in lessons[1..] :: l.id;
      assert forall l :: l in lessons[1..] ==> l.id != lessons[0].id;
      assert (set l | l in lessons :: l.id) == rest + {lessons[0].id};
    }
  }

  lemma {:induction false} Squeezed(a: seq<int>, k: nat)
    requires forall i, j :: 0 <= i < j < |a| ==> a[i] < a[j]
    requires forall i :: 0 <= i < |a| ==> 0 <= a[i] < |a|
    requires k < |a|
    ensures a[k] == k
  {
    AtLeast(a, k);
    AtMost(a, k);
  }

  lemma {:induction false} AtLeast(a: seq<int>, k: nat)
    requires forall i, j :: 0 <= i < j < |a| ==> a[i] < a[j]
    requires k < |a| && a[0] >= 0
    ensures a[k] >= k
  {
    if k > 0 {
      AtLeast(a, k - 1);
    }
  }

  lemma {:induction false} AtMost(a: seq<int>, k: nat)
    requires forall i, j :: 0 <= i < j < |a| ==> a[i] < a[j]
    requires k < |a| && a[|a| - 1] < |a|
    ensures a[k] <= k
    decreases |a| - k
  {
    if k < |a| - 1 {
      AtMost(a, k + 1);
    }
  }

  lemma {:induction false} RankPoints(lessons: seq<Lesson>, id: Id)
    requires exists l :: l in lessons && l.id == id
    ensures Rank(lessons, id) < |lessons| && lessons[Rank(lessons, id)].id == id
  {
    if lessons[0].id != id {
      var l :| l in lessons && l.id == id;
      assert l in lessons[1..];
      RankPoints(lessons[1..], id);
    }
  }

  function Numbered(group: seq<Lesson>, m: Lesson): Lesson {
    m.(position := Some(Rank(group, m.id)))
  }

  /** `next` holds the lessons of a group with the positions given to them, in any order. */
  ghost predicate IsNumbered(group: seq<Lesson>, next: seq<Lesson>) {
    && UniqueIds(group) && UniqueIds(next)
    && (forall m :: m in group ==> Numbered(group, m) in next)
    && (forall x :: x in next ==> exists m :: m in group && x == Numbered(group, m))
  }

  lemma NumberedHasSameLength(group: seq<Lesson>, next: seq<Lesson>)
    requires IsNumbered(group, next)
    ensures |next| == |group|
  {
    CountIds(group);
    CountIds(next);
    var a, b := (set l | l in group :: l.id), (set l | l in next :: l.id);
    forall l | l in group ensures l.id in b {
      assert Numbered(group, l) in next;
    }
    assert a == b;
  }

  lemma {:induction false} NumberedPosition(group: seq<Lesson>, next: seq<Lesson>, k: nat)
    requires IsNumbered(group, next) && k < |next|
    ensures next[k].position == Some(Rank(group, next[k].id))
    ensures 0 <= Rank(group, next[k].id) < |group| && group[Rank(group, next[k].id)].id == next[k].id
  {
    hide UniqueIds;
    assert next[k] in next;
    var m :| m in group && next[k] == Numbered(group, m);
    RankPoints(group, m.id);
  }

  /** Sorted by position, numbered lessons stand at their positions. */
  lemma NumberedStands(group: seq<Lesson>, next: seq<Lesson>, k: nat)
    requires IsNumbered(group, next) && Sorted(next) && k < |next|
    ensures next[k].position == Some(k)
  {
    var a := seq(|next|, i requires 0 <= i < |next| => Rank(group, next[i].id));
    NumberedHasSameLength(group, next);
    forall i | 0 <= i < |next| ensures next[i].position == Some(a[i]) && 0 <= a[i] < |group| && group[a[i]].id == next[i].id {
      NumberedPosition(group, next, i);
    }
    assert forall i, j :: 0 <= i < j < |next| ==> next[i].id != next[j].id;
    hide IsNumbered, Rank;
    forall i, j | 0 <= i < j < |a| ensures a[i] < a[j] {
      assert Before(next[i], next[j]);
    }
    Squeezed(a, k);
  }

  /** The lessons after a first run without failures. */
  ghost predicate IsAfter(sorted: seq<Lesson>, after: seq<Lesson>) {
    && UniqueIds(sorted) && UniqueIds(after)
    && (forall l :: l in sorted ==> Placed(sorted, l) in after)
    && (forall x :: x in after ==> exists l :: l in sorted && x == Placed(sorted, l))
  }

  lemma ReplacedStays(sorted: seq<Lesson>, after: seq<Lesson>, l: Lesson)
    requires IsAfter(sorted, after)
    ensures IsReplaced(after, Placed(sorted, l)) <==> IsReplaced(sorted, l)
  {
  }

  lemma PeersAreNumbered(sorted: seq<Lesson>, after: seq<Lesson>, l: Lesson)
    requires IsAfter(sorted, after) && l in sorted && !IsReplaced(sorted, l)
    ensures IsNumbered(Peers(sorted, l), Peers(after, Placed(sorted, l)))
  {
    var group, next := Peers(sorted, l), Peers(after, Placed(sorted, l));
    FilterKeepsUniqueIds(PeerOf(l), sorted);
    FilterKeepsUniqueIds(PeerOf(Placed(sorted, l)), after);
    FilterMembers(PeerOf(l), sorted);
    FilterMembers(PeerOf(Placed(sorted, l)), after);
    forall m | m in group ensures Placed(sorted, m) == Numbered(group, m) && Placed(sorted, m) in next {
      PeersOfPeer(sorted, l, m);
    }
    forall x | x in next ensures exists m :: m in group && x == Placed(sorted, m) {
      var m :| m in sorted && x == Placed(sorted, m);
      assert PeerOf(l)(m);
    }
  }

  /** Whatever order the query returns equal lessons in, a second run finds nothing to write. */
  lemma SecondRunWritesNothing(sorted: seq<Lesson>, again: seq<Lesson>, x: Lesson)
    requires IsAfter(sorted, again) && Sorted(again) && x in again
    ensures Placed(again, x) == x
  {
    var l :| l in sorted && x == Placed(sorted, l);
    ReplacedStays(sorted, again, l);
    if !IsReplaced(sorted, l) {
      var next := Peers(again, x);
      PeersAreNumbered(sorted, again, l);
      FilterKeepsSorted(PeerOf(x), again);
      FilterMembers(PeerOf(x), again);
      var k :| 0 <= k < |next| && next[k] == x;
      NumberedStands(Peers(sorted, l), next, k);
      RankAt(next, k);
    }
  }

  /** A run of `Up` in which no update fails, as its contract states it, followed by a new query. */
  ghost predicate RunAndQuery(before: seq<Lesson>, sorted: seq<Lesson>, after: seq<Lesson>, again: seq<Lesson>) {
    && UniqueIds(before) && Lists(sorted, before) && Lists(again, after)
    && |after| == |before| && forall i :: 0 <= i < |after| ==> after[i] == Placed(sorted, before[i])
  }

  lemma RunLeavesNumbered(before: seq<Lesson>, sorted: seq<Lesson>, after: seq<Lesson>, again: seq<Lesson>)
    requires RunAndQuery(before, sorted, after, again)
    ensures IsAfter(sorted, again)
  {
  }

  /** So a second run after a first one without failures moves nothing: neither is any task modified nor any lesson logged. */
  lemma SecondRunIsIdle(before: seq<Lesson>, sorted: seq<Lesson>, after: seq<Lesson>, again: seq<Lesson>)
    requires RunAndQuery(before, sorted, after, again)
    ensures forall x :: x in after ==> Placed(again, x) == x
    ensures forall id :: !IsMoved(again, id)
  {
    RunLeavesNumbered(before, sorted, after, again);
    forall x | x in again ensures Placed(again, x) == x {
      SecondRunWritesNothing(sorted, again, x);
    }
    hide Placed, IsAfter, Sorted;
  }

  /** An example: a lesson whose course is null, beside one whose course is missing and whose course group is null. */
  lemma NullCourseGetsNoTask(a: Lesson, b: Lesson)
    requires a.id != b.id && a.courseId.Null? && b.courseId.Missing? && b.courseGroupId.Null?
    ensures IsReplaced([a, b], a) && !IsReplaced([a, b], b) && Placed([a, b], a) == a
  {
  }

  // ---- positions, said of the lessons alone ----

  /** Both belong to one course, or, having none, to one course group. */
  predicate InSameGroup(a: Lesson, b: Lesson) {
    if b.courseId.Missing? then a.courseId.Missing? && a.courseGroupId == b.courseGroupId else a.courseId == b.courseId
  }

  /** A lesson without course whose course group has the key of the course. */
  predicate Displaces(a: Lesson, b: Lesson) {
    a.courseId.Missing? && !b.courseId.Missing? && a.courseGroupId == b.courseId
  }

  /** The first `n` lessons that belong to the group of a lesson. */
  function OfGroup(sorted: seq<Lesson>, l: Lesson, n: nat): set<nat>
    requires n <= |sorted|
  {
    set i: nat | i < n && InSameGroup(sorted[i], l)
  }

  lemma PeerIff(l: Lesson, m: Lesson)
    ensures PeerOf(l)(m) <==> InSameGroup(m, l)
  {
  }

  lemma {:induction false} PeersAreCounted(sorted: seq<Lesson>, l: Lesson, n: nat)
    requires n <= |sorted|
    ensures |Filter(PeerOf(l), sorted[..n])| == |OfGroup(sorted, l, n)|
  {
    hide PeerOf, InSameGroup;
    if n > 0 {
      PeersAreCounted(sorted, l, n - 1);
      var last := sorted[n - 1];
      PeerIff(l, last);
      assert sorted[..n] == sorted[..n - 1] + [last];
      FilterAppend(PeerOf(l), sorted[..n - 1], [last]);
      assert OfGroup(sorted, l, n) == OfGroup(sorted, l, n - 1) + if InSameGroup(last, l) then {n - 1} else {};
    }
  }

  lemma {:induction false} RankBehind(a: seq<Lesson>, l: Lesson, b: seq<Lesson>)
    requires forall m :: m in a ==> m.id != l.id
    ensures Rank(a + [l] + b, l.id) == |a|
  {
    if a == [] {
      assert (a + [l] + b)[0] == l;
    } else {
      assert (a + [l] + b)[0] == a[0] && (a + [l] + b)[1..] == a[1..] + [l] + b;
      RankBehind(a[1..], l, b);
    }
  }

  /**
   A lesson gets as its position the number of lessons of its group that stand before it, unless it is displaced; nothing
   else about it changes.
   */
  lemma PositionCountsTheEarlier(sorted: seq<Lesson>, k: nat)
    requires UniqueIds(sorted) && k < |sorted|
    ensures Placed(sorted, sorted[k]) ==
            if exists m :: m in sorted && Displaces(m, sorted[k]) then sorted[k]
            else Lesson(sorted[k].id, sorted[k].courseId, sorted[k].courseGroupId, Some(|OfGroup(sorted, sorted[k], k)|), sorted[k].createdAt)
  {
    hide Filter, Rank;
    var l := sorted[k];
    var before := Filter(PeerOf(l), sorted[..k]);
    PeersAreCounted(sorted, l, k);
    FilterMembers(PeerOf(l), sorted[..k]);
    assert sorted == sorted[..k] + ([l] + sorted[k + 1..]);
    FilterAppend(PeerOf(l), sorted[..k], [l] + sorted[k + 1..]);
    FilterAppend(PeerOf(l), [l], sorted[k + 1..]);
    RankBehind(before, l, Filter(PeerOf(l), sorted[k + 1..]));
    assert Filter(PeerOf(l), [l]) == [l] by {
      FilterAll(PeerOf(l), [l]);
    }
    assert Peers(sorted, l) == before + [l] + Filter(PeerOf(l), sorted[k + 1..]);
    assert IsReplaced(sorted, l) <==> exists m :: m in sorted && Displaces(m, l);
  }

  /** Lessons without a position come first, then those with a smaller one, and of two equal ones the older. */
  lemma QueryOrder(sorted: seq<Lesson>, i: nat, j: nat)
    requires Sorted(sorted) && i < j < |sorted|
    ensures sorted[j].position.None? ==> sorted[i].position.None?
    ensures sorted[i].position.Some? && sorted[j].position.Some? ==> sorted[i].position.value <= sorted[j].position.value
    ensures sorted[i].position == sorted[j].position ==> sorted[i].createdAt <= sorted[j].createdAt
  {
    assert Before(sorted[i], sorted[j]);
  }
}
