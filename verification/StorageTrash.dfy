/** Moving files to the trash of a storage provider: copies under an expiring key, then deletion, in batches. */
module StorageTrash {

  type Key = string

  datatype Stored = Stored(content: string, expires: bool)

  type Objects = map<Key, Stored>

  const PREFIX := "expiring_"

  function Expiring(id: Key): Key {
    PREFIX + id
  }

  lemma ExpiringIsInjective(a: Key, b: Key)
    requires Expiring(a) == Expiring(b)
    ensures a == b
  {
    assert a == Expiring(a)[|PREFIX|..];
    assert b == Expiring(b)[|PREFIX|..];
  }

  const MAX_REQUEST := 1000

  function Members(ids: seq<Key>): set<Key> {
    set id | id in ids
  }

  function AllMembers(slices: seq<seq<Key>>): set<Key> {
    set slice, id | slice in slices && id in slice :: id
  }

  /** Which requests to the provider fail. */
  datatype Faults = Faults(copies: set<Key>, deletions: set<Key>)

  // ---- what the requests do ----

  /** Copying one after the other, in the order in which the copies complete, and whether all succeed. */
  function CopyRun(objects: Objects, order: seq<Key>, failing: set<Key>): (r: (Objects, bool))
    ensures objects.Keys <= r.0.Keys
  {
    if order == [] then (objects, true)
    else
      var (done, ok) := CopyRun(objects, order[..|order| - 1], failing);
      var id := order[|order| - 1];
      if id in done && id !in failing then (done[Expiring(id) := Stored(done[id].content, true)], ok) else (done, false)
  }

  /** One request can name at most 1000 files; they are deleted once all of them are copied. */
  function Request(objects: Objects, ids: seq<Key>, order: seq<Key>, faults: Faults): (Objects, bool) {
    if |ids| > MAX_REQUEST then (objects, false)
    else
      var (copied, ok) := CopyRun(objects, order, faults.copies);
      if ok && Members(ids) !! faults.deletions then (copied - Members(ids), true) else (copied, false)
  }

  /** The requests one after the other, up to the first that fails. */
  function BatchRun(objects: Objects, slices: seq<seq<Key>>, orders: seq<seq<Key>>, faults: Faults): (Objects, bool)
    requires |orders| == |slices|
  {
    if slices == [] then (objects, true)
    else
      var last := |slices| - 1;
      var (done, ok) := BatchRun(objects, slices[..last], orders[..last], faults);
      if ok then Request(done, slices[last], orders[last], faults) else (done, false)
  }

  /** The slices of at most `limit` files. */
  function Batches(ids: seq<Key>, limit: nat): seq<seq<Key>>
    requires limit >= 1
  {
    if |ids| <= limit then (if ids == [] then [] else [ids]) else [ids[..limit]] + Batches(ids[limit..], limit)
  }

  predicate Permutes(order: seq<Key>, ids: seq<Key>) {
    multiset(order) == multiset(ids)
  }

  /** The copies of each slice complete in some order. */
  ghost predicate Orders(orders: seq<seq<Key>>, slices: seq<seq<Key>>) {
    |orders| == |slices| && forall k :: 0 <= k < |slices| ==> Permutes(orders[k], slices[k])
  }

  // ---- the program ----

  class Bucket {
    var objects: Objects

    constructor (objects: Objects)
      ensures this.objects == objects
    {
      this.objects := objects;
    }

    method CopyObject(id: Key, fails: bool) returns (ok: bool)
      modifies this
      ensures ok <==> id in old(objects) && !fails
      ensures objects == if ok then old(objects)[Expiring(id) := Stored(old(objects)[id].content, true)] else old(objects)
    {
      ok := id in objects && !fails;
      if ok {
        objects := objects[Expiring(id) := Stored(objects[id].content, true)];
      }
    }

    /** All copies are started at once and complete in any order; a file listed twice is copied twice. */
    method CopyAll(ids: seq<Key>, faults: Faults) returns (ok: bool, ghost order: seq<Key>)
      modifies this
      ensures Permutes(order, ids)
      ensures (objects, ok) == CopyRun(old(objects), order, faults.copies)
    {
      var remaining := multiset(ids);
      ok, order := true, [];
      while remaining != multiset{}
        invariant remaining + multiset(order) == multiset(ids)
        invariant (objects, ok) == CopyRun(old(objects), order, faults.copies)
        decreases |remaining|
      {
        var id :| id in remaining;
        var done := CopyObject(id, id in faults.copies);
        ok := ok && done;
        remaining := remaining - multiset{id};
        assert (order + [id])[..|order|] == order;
        order := order + [id];
      }
    }

    method MoveFilesToTrash(ids: seq<Key>, faults: Faults) returns (ok: bool, ghost order: seq<Key>)
      modifies this
      ensures Permutes(order, ids)
      ensures (objects, ok) == Request(old(objects), ids, order, faults)
    {
      order := ids;
      if |ids| > MAX_REQUEST {
        return false, ids;
      }
      ok, order := CopyAll(ids, faults);
      if ok && Members(ids) !! faults.deletions {
        objects := objects - Members(ids);
      } else {
        ok := false;
      }
    }

    method MoveFilesToTrashBatch(ids: seq<Key>, limit: nat, faults: Faults) returns (ok: bool, ghost orders: seq<seq<Key>>)
      requires limit >= 1
      modifies this
      ensures Orders(orders, Batches(ids, limit))
      ensures (objects, ok) == BatchRun(old(objects), Batches(ids, limit), orders, faults)
    {
      hide Request, BatchRun, Orders, Permutes, Batches;
      ghost var start, all, done := objects, Batches(ids, limit), [];
      var processed := 0;
      orders := [];
      NoSlices(start, faults);
      while processed < |ids|
        invariant |orders| == |done| && Orders(orders, done) && (objects, true) == BatchRun(start, done, orders, faults)
        invariant all == done + Batches(Rest(ids, processed), limit)
        decreases |ids| - processed
      {
        var end := if processed + limit < |ids| then processed + limit else |ids|;
        ghost var before := objects;
        NextSlice(ids, processed, limit);
        var moved;
        ghost var order;
        moved, order := MoveFilesToTrash(ids[processed..end], faults);
        OneMoreSlice(start, before, done, orders, ids[processed..end], order, faults);
        done, orders := done + [ids[processed..end]], orders + [order];
        processed := processed + limit;
        assert all == done + Batches(Rest(ids, processed), limit);
        if !moved {
          FailedStays(start, done, orders, Batches(Rest(ids, processed), limit), faults);
          return false, orders + Batches(Rest(ids, processed), limit);
        }
      }
      AllSlices(done, limit);
      return true, orders;
    }
  }

  function Rest(ids: seq<Key>, processed: nat): seq<Key> {
    if processed < |ids| then ids[processed..] else []
  }

  lemma {:induction false} NoSlices(objects: Objects, faults: Faults)
    ensures Orders([], []) && BatchRun(objects, [], [], faults) == (objects, true)
  {
  }

  lemma {:induction false} AllSlices(done: seq<seq<Key>>, limit: nat)
    requires limit >= 1
    ensures done + Batches([], limit) == done
  {
  }

  lemma {:induction false} OneMoreSlice(
      start: Objects, objects: Objects, slices: seq<seq<Key>>, orders: seq<seq<Key>>, slice: seq<Key>, order: seq<Key>, faults: Faults)
    requires Orders(orders, slices) && Permutes(order, slice) && (objects, true) == BatchRun(start, slices, orders, faults)
    ensures Orders(orders + [order], slices + [slice])
    ensures BatchRun(start, slices + [slice], orders + [order], faults) == Request(objects, slice, order, faults)
  {
    assert (slices + [slice])[..|slices|] == slices && (orders + [order])[..|orders|] == orders;
    hide Request;
  }

  lemma {:induction false} NextSlice(ids: seq<Key>, processed: nat, limit: nat)
    requires limit >= 1 && processed < |ids|
    ensures var end := if processed + limit < |ids| then processed + limit else |ids|;
            Batches(Rest(ids, processed), limit) == [ids[processed..end]] + Batches(Rest(ids, processed + limit), limit)
  {
    var rest := Rest(ids, processed);
    if processed + limit < |ids| {
      assert rest[..limit] == ids[processed..processed + limit] && rest[limit..] == ids[processed + limit..];
    } else {
      assert rest == ids[processed..|ids|] && Batches([], limit) == [];
    }
  }

  /** Nothing is requested after a failure. */
  lemma {:induction false} FailedStays(
      objects: Objects, slices: seq<seq<Key>>, orders: seq<seq<Key>>, more: seq<seq<Key>>, faults: Faults)
    requires Orders(orders, slices) && !BatchRun(objects, slices, orders, faults).1
    ensures Orders(orders + more, slices + more)
    ensures BatchRun(objects, slices + more, orders + more, faults) == BatchRun(objects, slices, orders, faults)
    decreases |more|
  {
    if more == [] {
      assert slices + more == slices && orders + more == orders;
    } else {
      var init := more[..|more| - 1];
      FailedStays(objects, slices, orders, init, faults);
      assert (slices + more)[..|slices + more| - 1] == slices + init;
      assert (orders + more)[..|orders + more| - 1] == orders + init;
    }
  }

  /** The slices concatenate to the input; none is empty or too long, and all but the last are full. */
  lemma {:induction false} BatchesPartition(ids: seq<Key>, limit: nat)
    requires limit >= 1
    ensures var b := Batches(ids, limit);
            && Flatten(b) == ids
            && (forall i :: 0 <= i < |b| ==> 0 < |b[i]| <= limit)
            && (forall i :: 0 <= i < |b| - 1 ==> |b[i]| == limit)
  {
    var b := Batches(ids, limit);
    if |ids| > limit {
      BatchesPartition(ids[limit..], limit);
      assert b[1..] == Batches(ids[limit..], limit);
      assert ids == ids[..limit] + ids[limit..];
      forall i | 0 < i < |b| ensures b[i] == b[1..][i - 1] {
      }
    } else if ids != [] {
      assert Flatten(b) == ids + Flatten([]);
    }
  }

  /** Every slice fits a request exactly when the limit does, or all files together. */
  lemma {:induction false} SlicesFitIff(ids: seq<Key>, limit: nat)
    requires limit >= 1
    ensures (forall slice :: slice in Batches(ids, limit) ==> |slice| <= 1000) <==> limit <= 1000 || |ids| <= 1000
  {
    BatchesPartition(ids, limit);
    var b := Batches(ids, limit);
    if limit > 1000 && |ids| > 1000 {
      assert b[0] in b;
    }
  }

  function Flatten(batches: seq<seq<Key>>): seq<Key> {
    if batches == [] then [] else batches[0] + Flatten(batches[1..])
  }

  // ---- moved files, key by key ----

  ghost predicate IsCopyOf(k: Key, good: set<Key>) {
    exists id :: id in good && k == Expiring(id)
  }

  ghost function OriginalOf(k: Key, good: set<Key>): (id: Key)
    requires IsCopyOf(k, good)
    ensures id in good && k == Expiring(id)
  {
    var id :| id in good && k == Expiring(id); id
  }

  /** The bucket once the files `good` have been copied. */
  ghost function Copied(objects: Objects, good: set<Key>): Objects
    requires good <= objects.Keys
  {
    map k | k in objects.Keys + (set id | id in good :: Expiring(id)) ::
      if IsCopyOf(k, good) then Stored(objects[OriginalOf(k, good)].content, true) else objects[k]
  }

  /** The bucket once the files have been moved to the trash: what is left under their names are copies of others. */
  ghost function Trashed(objects: Objects, ids: set<Key>): Objects
    requires ids <= objects.Keys
  {
    map k | k in Copied(objects, ids) && (k in ids ==> IsCopyOf(k, ids)) :: Copied(objects, ids)[k]
  }

  lemma CopyingNothing(objects: Objects)
    ensures Copied(objects, {}) == objects && Trashed(objects, {}) == objects
  {
  }

  lemma CopiedValue(objects: Objects, good: set<Key>, id: Key)
    requires good <= objects.Keys && id in good
    ensures Expiring(id) in Copied(objects, good) && Copied(objects, good)[Expiring(id)] == Stored(objects[id].content, true)
  {
    assert IsCopyOf(Expiring(id), good);
    ExpiringIsInjective(OriginalOf(Expiring(id), good), id);
  }

  lemma CopyOfEither(k: Key, a: set<Key>, b: set<Key>)
    ensures IsCopyOf(k, a + b) <==> IsCopyOf(k, a) || IsCopyOf(k, b)
  {
  }

  /** What trashing means key by key. */
  lemma TrashedContents(objects: Objects, ids: set<Key>)
    requires ids <= objects.Keys
    ensures forall id :: id in ids ==> (id in Trashed(objects, ids) <==> IsCopyOf(id, ids)) && Expiring(id) in Trashed(objects, ids) &&
                                       Trashed(objects, ids)[Expiring(id)] == Stored(objects[id].content, true)
    ensures forall k :: k !in ids && !IsCopyOf(k, ids) ==>
              (k in Trashed(objects, ids) <==> k in objects) && (k in objects ==> Trashed(objects, ids)[k] == objects[k])
  {
    forall id | id in ids
      ensures Expiring(id) in Copied(objects, ids) && Copied(objects, ids)[Expiring(id)] == Stored(objects[id].content, true)
      ensures IsCopyOf(Expiring(id), ids)
    {
      CopiedValue(objects, ids, id);
    }
  }

  /** A file that is no copy of those that have been moved. */
  lemma StillThere(objects: Objects, done: set<Key>, id: Key)
    requires done <= objects.Keys && !IsCopyOf(id, done)
    ensures id in Trashed(objects, done) <==> id in objects && id !in done
    ensures id in Trashed(objects, done) ==> Trashed(objects, done)[id] == objects[id]
  {
  }

  /** A key of the bucket after two batches. */
  lemma KeyInBatches(objects: Objects, a: set<Key>, b: set<Key>, k: Key)
    requires a + b <= objects.Keys && a !! b && b <= Trashed(objects, a).Keys
    requires forall id :: id in b ==> !IsCopyOf(id, a + b) && Trashed(objects, a)[id] == objects[id]
    ensures var left, right := Trashed(Trashed(objects, a), b), Trashed(objects, a + b);
            (k in left <==> k in right) && (k in left ==> left[k] == right[k])
  {
    if IsCopyOf(k, b) {
      var id := OriginalOf(k, b);
      CopiedValue(Trashed(objects, a), b, id);
      CopiedValue(objects, a + b, id);
    } else if IsCopyOf(k, a) {
      var id := OriginalOf(k, a);
      CopiedValue(objects, a, id);
      CopiedValue(objects, a + b, id);
    } else {
      CopyOfEither(k, a, b);
    }
    hide Expiring;
  }

  /** Trashing in two batches is trashing at once, unless the second holds the copy of a file. */
  lemma TrashedInBatches(objects: Objects, a: set<Key>, b: set<Key>)
    requires a + b <= objects.Keys && a !! b && forall id :: id in b ==> !IsCopyOf(id, a + b)
    ensures b <= Trashed(objects, a).Keys
    ensures Trashed(Trashed(objects, a), b) == Trashed(objects, a + b)
  {
    forall id | id in b ensures id in Trashed(objects, a) && Trashed(objects, a)[id] == objects[id] {
      CopyOfEither(id, a, b);
      StillThere(objects, a, id);
    }
    hide Trashed, IsCopyOf;
    forall k {
      KeyInBatches(objects, a, b, k);
    }
  }

  // ---- what is lost ----

  ghost predicate IsKept(before: Objects, after: Objects, id: Key)
    requires id in before
  {
    || (id in after && after[id] == before[id])
    || (Expiring(id) in after && after[Expiring(id)].content == before[id].content)
  }

  /** No content is lost: every file is still there under its own or under its expiring key. */
  ghost predicate Conserved(before: Objects, after: Objects, ids: set<Key>) {
    forall id :: id in ids && id in before ==> IsKept(before, after, id)
  }

  /** Nothing else has changed. */
  ghost predicate OthersUnchanged(before: Objects, after: Objects, ids: set<Key>) {
    forall k :: k !in ids && !IsCopyOf(k, ids) ==> (k in after <==> k in before) && (k in before ==> after[k] == before[k])
  }

  lemma TrashingLosesNothing(before: Objects, ids: set<Key>)
    requires ids <= before.Keys
    ensures Conserved(before, Trashed(before, ids), ids) && OthersUnchanged(before, Trashed(before, ids), ids)
  {
    TrashedContents(before, ids);
  }

  // ---- one request ----

  /** No file is itself named like the expiring copy of another one. */
  ghost predicate NoCollision(ids: set<Key>) {
    forall id :: id in ids ==> Expiring(id) !in ids
  }

  /** What one request needs. */
  predicate CanMove(objects: Objects, ids: seq<Key>, faults: Faults) {
    |ids| <= MAX_REQUEST && Members(ids) <= objects.Keys && Members(ids) !! faults.copies + faults.deletions
  }

  /** The files that are copied. */
  function Copies(objects: Objects, ids: seq<Key>, failing: set<Key>): set<Key> {
    set id | id in ids && id in objects && id !in failing
  }

  /** Copying some of the files and then failing. */
  ghost predicate Interrupted(before: Objects, after: Objects, ids: set<Key>) {
    exists good :: good <= ids && good <= before.Keys && after == Copied(before, good)
  }

  lemma CopyOneMore(objects: Objects, good: set<Key>, all: set<Key>, id: Key)
    requires good <= objects.Keys && good + {id} <= all && NoCollision(all)
    ensures id in Copied(objects, good) <==> id in objects
    ensures id in objects ==>
              && Copied(objects, good)[id] == objects[id]
              && Copied(objects, good + {id}) == Copied(objects, good)[Expiring(id) := Stored(objects[id].content, true)]
  {
    assert !IsCopyOf(id, good);
    if id in objects {
      var more := good + {id};
      var left, right := Copied(objects, more), Copied(objects, good)[Expiring(id) := Stored(objects[id].content, true)];
      forall k | k in left || k in right ensures k in left && k in right && left[k] == right[k] {
        if k == Expiring(id) {
          assert IsCopyOf(k, more);
          ExpiringIsInjective(OriginalOf(k, more), id);
        } else if IsCopyOf(k, good) {
          assert OriginalOf(k, good) in more;
          ExpiringIsInjective(OriginalOf(k, more), OriginalOf(k, good));
        }
      }
    }
  }

  lemma {:induction false} CopyRunOneMore(objects: Objects, init: seq<Key>, id: Key, failing: set<Key>)
    ensures var (done, ok) := CopyRun(objects, init, failing);
            CopyRun(objects, init + [id], failing) ==
              if id in done && id !in failing then (done[Expiring(id) := Stored(done[id].content, true)], ok) else (done, false)
    ensures Copies(objects, init + [id], failing) ==
              Copies(objects, init, failing) + if id in objects && id !in failing then {id} else {}
    ensures Members(init + [id]) == Members(init) + {id}
  {
    assert (init + [id])[..|init|] == init;
    hide CopyRun, Expiring;
  }

  ghost predicate RunCopies(objects: Objects, order: seq<Key>, failing: set<Key>) {
    var (copied, ok) := CopyRun(objects, order, failing);
    && copied == Copied(objects, Copies(objects, order, failing))
    && (ok <==> Members(order) <= objects.Keys && Members(order) !! failing)
  }

  lemma RunCopiesOneMore(objects: Objects, init: seq<Key>, id: Key, failing: set<Key>, all: set<Key>)
    requires RunCopies(objects, init, failing) && Members(init) + {id} <= all && NoCollision(all)
    ensures RunCopies(objects, init + [id], failing)
  {
    var good := Copies(objects, init, failing);
    assert good <= Members(init) && good <= objects.Keys;
    assert good + {} == good;
    CopyRunOneMore(objects, init, id, failing);
    hide CopyRun, Copied, NoCollision, Copies, Expiring, Members;
    CopyOneMore(objects, good, all, id);
  }

  /** Unless a file is named like the copy of another, the order of the copies does not matter. */
  lemma {:induction false} CopyRunCopies(objects: Objects, order: seq<Key>, failing: set<Key>, all: set<Key>)
    requires Members(order) <= all && NoCollision(all)
    ensures RunCopies(objects, order, failing)
    decreases |order|
  {
    if order == [] {
      CopyingNothing(objects);
      assert Copies(objects, order, failing) == {};
    } else {
      var init, id := order[..|order| - 1], order[|order| - 1];
      assert order == init + [id];
      assert Members(order) == Members(init) + {id};
      hide RunCopies, NoCollision, Members;
      CopyRunCopies(objects, init, failing, all);
      RunCopiesOneMore(objects, init, id, failing, all);
    }
  }

  lemma PermutedMembers(order: seq<Key>, ids: seq<Key>)
    requires Permutes(order, ids)
    ensures Members(order) == Members(ids)
  {
    assert forall id :: id in order <==> id in multiset(order);
    assert forall id :: id in ids <==> id in multiset(ids);
  }

  /**
   When none of its files is named like the copy of another, a request moves them exactly when all of them exist and no
   call fails; a failure leaves every original.
   */
  lemma {:induction false} RequestMovesIff(objects: Objects, ids: seq<Key>, order: seq<Key>, faults: Faults)
    requires Permutes(order, ids) && NoCollision(Members(ids))
    ensures var (after, ok) := Request(objects, ids, order, faults);
            && (ok <==> CanMove(objects, ids, faults))
            && (ok ==> after == Trashed(objects, Members(ids)))
            && (!ok ==> Interrupted(objects, after, Members(ids)))
  {
    PermutedMembers(order, ids);
    CopyRunCopies(objects, order, faults.copies, Members(ids));
    CopyingNothing(objects);
    var good := Copies(objects, order, faults.copies);
    assert good <= Members(ids) && good <= objects.Keys;
    if CanMove(objects, ids, faults) {
      assert good == Members(ids);
      assert forall k :: k in Members(ids) ==> !IsCopyOf(k, Members(ids));
      assert Copied(objects, good) - Members(ids) == Trashed(objects, Members(ids));
    }
    assert {} <= Members(ids) && {} <= objects.Keys;
    hide CopyRun, Copied, Copies;
  }

  /**
   A request that moves existing files keeps their content exactly when none of them is named like the copy of another:
   of such a pair, the file and its copy are deleted.
   */
  lemma {:induction false} RequestConservesIff(objects: Objects, ids: seq<Key>, order: seq<Key>, faults: Faults)
    requires Permutes(order, ids) && Members(ids) <= objects.Keys && Request(objects, ids, order, faults).1
    ensures Conserved(objects, Request(objects, ids, order, faults).0, Members(ids)) <==> NoCollision(Members(ids))
  {
    var after := Request(objects, ids, order, faults).0;
    assert Members(ids) !! after.Keys;
    if NoCollision(Members(ids)) {
      RequestMovesIff(objects, ids, order, faults);
      TrashingLosesNothing(objects, Members(ids));
    } else {
      var id :| id in Members(ids) && Expiring(id) in Members(ids);
      assert !IsKept(objects, after, id);
    }
    hide CopyRun, Trashed;
  }

  /** Such a pair, whichever of them is copied first. */
  lemma {:induction false} CopyOntoAnotherFileIsLost(letter: Stored, other: Stored, order: seq<Key>)
    requires Permutes(order, ["letter", "expiring_letter"])
    ensures var before := map["letter" := letter, "expiring_letter" := other];
            var (after, ok) := Request(before, ["letter", "expiring_letter"], order, Faults({}, {}));
            ok && !Conserved(before, after, before.Keys)
  {
    var before, ids := map["letter" := letter, "expiring_letter" := other], ["letter", "expiring_letter"];
    assert Expiring("letter") == "expiring_letter";
    assert Members(ids) == before.Keys;
    PermutedMembers(order, ids);
    ExistingAreCopied(before, order);
    RequestConservesIff(before, ids, order, Faults({}, {}));
    assert "letter" in ids && "expiring_letter" in ids;
    hide CopyRun, Conserved;
  }

  lemma {:induction false} ExistingAreCopied(objects: Objects, order: seq<Key>)
    requires Members(order) <= objects.Keys
    ensures CopyRun(objects, order, {}).1
    decreases |order|
  {
    if order != [] {
      assert order[|order| - 1] in order;
      ExistingAreCopied(objects, order[..|order| - 1]);
    }
  }

  // ---- the batches ----

  /** No copy of a file is named in its slice or a later one. */
  ghost predicate NoClash(slices: seq<seq<Key>>) {
    forall k, l, id :: 0 <= k <= l < |slices| && id in slices[k] ==> Expiring(id) !in slices[l]
  }

  /** A file that is listed twice is listed in one slice. */
  ghost predicate InOneSlice(slices: seq<seq<Key>>) {
    forall k, l, id :: 0 <= k < l < |slices| && id in slices[k] ==> id !in slices[l]
  }

  ghost predicate CanMoveInBatches(objects: Objects, slices: seq<seq<Key>>, faults: Faults) {
    InOneSlice(slices) && forall slice :: slice in slices ==> CanMove(objects, slice, faults)
  }

  lemma SliceMember(slices: seq<seq<Key>>, k: nat, id: Key)
    requires k < |slices| && id in slices[k]
    ensures id in AllMembers(slices)
  {
    assert slices[k] in slices;
  }

  lemma SliceOf(slices: seq<seq<Key>>, id: Key) returns (k: nat)
    requires id in AllMembers(slices)
    ensures k < |slices| && id in slices[k]
  {
    var slice :| slice in slices && id in slice;
    k :| 0 <= k < |slices| && slices[k] == slice;
  }

  lemma AllButLast(slices: seq<seq<Key>>)
    requires slices != []
    ensures AllMembers(slices) == AllMembers(slices[..|slices| - 1]) + Members(slices[|slices| - 1])
  {
    assert slices == slices[..|slices| - 1] + [slices[|slices| - 1]];
    assert slices[|slices| - 1] in slices;
  }

  lemma NoClashAtTheEnd(slices: seq<seq<Key>>)
    requires slices != [] && NoClash(slices)
    ensures var init, last := slices[..|slices| - 1], slices[|slices| - 1];
            && NoClash(init) && NoCollision(Members(last))
            && forall id :: id in Members(last) ==> !IsCopyOf(id, AllMembers(slices))
  {
    var init, last := slices[..|slices| - 1], slices[|slices| - 1];
    assert forall k :: 0 <= k < |init| ==> init[k] == slices[k];
    hide Expiring, AllMembers;
    forall id | id in last ensures !IsCopyOf(id, AllMembers(slices)) {
      if IsCopyOf(id, AllMembers(slices)) {
        var k := SliceOf(slices, OriginalOf(id, AllMembers(slices)));
      }
    }
  }

  lemma InOneSliceAtTheEnd(slices: seq<seq<Key>>)
    requires slices != []
    ensures var init, last := slices[..|slices| - 1], slices[|slices| - 1];
            InOneSlice(slices) <==> InOneSlice(init) && AllMembers(init) !! Members(last)
  {
    var init, last := slices[..|slices| - 1], slices[|slices| - 1];
    assert forall k :: 0 <= k < |init| ==> init[k] == slices[k];
    hide AllMembers;
    if InOneSlice(slices) {
      forall id | id in AllMembers(init) ensures id !in last {
        var k := SliceOf(init, id);
        assert id in slices[k];
      }
    }
    if InOneSlice(init) && AllMembers(init) !! Members(last) {
      forall k, l, id | 0 <= k < l < |slices| && id in slices[k] ensures id !in slices[l] {
        SliceMember(init, k, id);
        if l < |init| {
          assert id in init[k];
        } else {
          assert id !in Members(last);
        }
      }
    }
  }

  lemma OtherIsUnchanged(before: Objects, done: set<Key>, good: set<Key>, k: Key)
    requires done <= before.Keys && good <= Trashed(before, done).Keys
    requires k !in done && !IsCopyOf(k, done) && !IsCopyOf(k, good)
    ensures var after := Copied(Trashed(before, done), good);
            (k in after <==> k in before) && (k in before ==> after[k] == before[k])
  {
  }

  lemma MovedFileIsKept(before: Objects, done: set<Key>, good: set<Key>, id: Key)
    requires id in done && done <= before.Keys && good <= Trashed(before, done).Keys && done !! good
    ensures IsKept(before, Copied(Trashed(before, done), good), id)
  {
    TrashedContents(before, done);
    hide Trashed, Expiring;
    if IsCopyOf(Expiring(id), good) {
      ExpiringIsInjective(OriginalOf(Expiring(id), good), id);
    }
  }

  lemma CopiedWhenInterrupted(before: Objects, after: Objects, ids: set<Key>) returns (good: set<Key>)
    requires Interrupted(before, after, ids)
    ensures good <= ids && good <= before.Keys && after == Copied(before, good)
  {
    good :| good <= ids && good <= before.Keys && after == Copied(before, good);
  }

  /** What full batches and then some copies of another leave of the files. */
  lemma CopyingMoreConserves(before: Objects, done: set<Key>, now: set<Key>, good: set<Key>)
    requires done <= before.Keys && good <= now && good <= Trashed(before, done).Keys && done !! good
    requires forall id :: id in now ==> !IsCopyOf(id, done) && !IsCopyOf(id, good)
    ensures Conserved(before, Copied(Trashed(before, done), good), done + now)
  {
    var after := Copied(Trashed(before, done), good);
    hide Trashed, Copied, IsKept, Expiring;
    forall id | id in done + now && id in before ensures IsKept(before, after, id) {
      if id in done {
        MovedFileIsKept(before, done, good, id);
      } else {
        OtherIsUnchanged(before, done, good, id);
        SameIsKept(before, after, id);
      }
    }
  }

  lemma CopyingMoreLeavesOthers(before: Objects, done: set<Key>, now: set<Key>, good: set<Key>)
    requires done <= before.Keys && good <= now && good <= Trashed(before, done).Keys
    ensures OthersUnchanged(before, Copied(Trashed(before, done), good), done + now)
  {
    var after := Copied(Trashed(before, done), good);
    hide Trashed, Copied;
    forall k | k !in done + now && !IsCopyOf(k, done + now)
      ensures (k in after <==> k in before) && (k in before ==> after[k] == before[k])
    {
      assert !IsCopyOf(k, done) && !IsCopyOf(k, good);
      OtherIsUnchanged(before, done, good, k);
    }
  }

  /** Full batches before, an interrupted one now, which holds no copy of a file. */
  lemma FailureConserves(before: Objects, done: set<Key>, now: set<Key>, after: Objects)
    requires done <= before.Keys && Interrupted(Trashed(before, done), after, now)
    requires forall id :: id in now ==> !IsCopyOf(id, done + now)
    ensures Conserved(before, after, done + now) && OthersUnchanged(before, after, done + now)
  {
    hide Interrupted;
    var good := CopiedWhenInterrupted(Trashed(before, done), after, now);
    forall id | id in now ensures !IsCopyOf(id, done) && !IsCopyOf(id, good) {
      assert !IsCopyOf(id, done + now);
    }
    forall id | id in good ensures id !in done {
      StillThere(before, done, id);
    }
    hide Trashed, Copied, IsCopyOf, Conserved, OthersUnchanged;
    CopyingMoreConserves(before, done, now, good);
    CopyingMoreLeavesOthers(before, done, now, good);
  }

  lemma SameIsKept(before: Objects, after: Objects, id: Key)
    requires id in before && id in after && after[id] == before[id]
    ensures IsKept(before, after, id)
  {
  }

  /** A request more, after which nothing is lost either. */
  lemma OneMoreRequest(before: Objects, done: set<Key>, ids: seq<Key>, order: seq<Key>, faults: Faults)
    requires done <= before.Keys && Permutes(order, ids) && NoCollision(Members(ids))
    requires forall id :: id in Members(ids) ==> !IsCopyOf(id, done + Members(ids))
    ensures var (after, ok) := Request(Trashed(before, done), ids, order, faults);
            var all := done + Members(ids);
            && (ok <==> CanMove(before, ids, faults) && done !! Members(ids))
            && (ok ==> after == Trashed(before, all))
            && Conserved(before, after, all) && OthersUnchanged(before, after, all)
  {
    var now := Members(ids);
    var (after, ok) := Request(Trashed(before, done), ids, order, faults);
    RequestMovesIff(Trashed(before, done), ids, order, faults);
    forall id | id in now ensures id in Trashed(before, done) <==> id in before && id !in done {
      CopyOfEither(id, done, now);
      StillThere(before, done, id);
    }
    hide Request, Trashed, IsCopyOf, Interrupted, Conserved, OthersUnchanged, NoCollision, Permutes, Members;
    if ok {
      TrashedInBatches(before, done, now);
      TrashingLosesNothing(before, done + now);
    } else {
      FailureConserves(before, done, now, after);
    }
  }

  lemma AsManyIsConserved(before: Objects, after: Objects, some: set<Key>, more: set<Key>)
    requires Conserved(before, after, some) && OthersUnchanged(before, after, some)
    requires forall id :: id in more ==> !IsCopyOf(id, some)
    ensures Conserved(before, after, some + more) && OthersUnchanged(before, after, some + more)
  {
    forall id | id in more && id !in some && id in before ensures IsKept(before, after, id) {
      SameIsKept(before, after, id);
    }
    forall k | !IsCopyOf(k, some + more) ensures !IsCopyOf(k, some) {
      CopyOfEither(k, some, more);
    }
    hide IsCopyOf, IsKept;
  }

  /**
   As long as no copy of a file is named in its slice or a later one, the files are moved exactly when every slice fits
   one request, every file exists and is listed in one slice, and no call fails.  In every other case an error is thrown,
   no content is lost, and nothing but the files and their copies has changed.
   */
  lemma {:induction false} BatchMovesIff(before: Objects, slices: seq<seq<Key>>, orders: seq<seq<Key>>, faults: Faults)
    requires Orders(orders, slices) && NoClash(slices)
    ensures var (after, ok) := BatchRun(before, slices, orders, faults);
            var all := AllMembers(slices);
            && (ok <==> CanMoveInBatches(before, slices, faults))
            && (ok ==> all <= before.Keys && after == Trashed(before, all))
            && Conserved(before, after, all) && OthersUnchanged(before, after, all)
    decreases |slices|
  {
    if slices == [] {
      CopyingNothing(before);
    } else {
      var n := |slices| - 1;
      var init, last, all := slices[..n], slices[n], AllMembers(slices);
      BatchMovesIff(before, init, orders[..n], faults);
      AllButLast(slices);
      NoClashAtTheEnd(slices);
      CanMoveAtTheEnd(before, slices, faults);
      var (mid, ok) := BatchRun(before, init, orders[..n], faults);
      hide Request, Trashed, IsCopyOf, Conserved, OthersUnchanged, CanMoveInBatches, CanMove, AllMembers, Members, NoClash, NoCollision;
      if ok {
        OneMoreRequest(before, AllMembers(init), last, orders[n], faults);
      } else {
        assert BatchRun(before, slices, orders, faults) == (mid, false);
        forall id | id in Members(last) ensures !IsCopyOf(id, AllMembers(init)) {
          CopyOfEither(id, AllMembers(init), Members(last));
        }
        AsManyIsConserved(before, mid, AllMembers(init), Members(last));
      }
    }
  }

  lemma CanMoveAtTheEnd(objects: Objects, slices: seq<seq<Key>>, faults: Faults)
    requires slices != []
    ensures var init, last := slices[..|slices| - 1], slices[|slices| - 1];
            CanMoveInBatches(objects, slices, faults) <==>
            CanMoveInBatches(objects, init, faults) && CanMove(objects, last, faults) && AllMembers(init) !! Members(last)
  {
    InOneSliceAtTheEnd(slices);
    assert slices == slices[..|slices| - 1] + [slices[|slices| - 1]];
    hide InOneSlice, CanMove, AllMembers, Members;
  }

  // ---- files that are named like copies ----

  /** Everything is in the trash: the content of each file is under its expiring key. */
  ghost predicate AllTrashed(before: Objects, after: Objects, ids: set<Key>) {
    forall id :: id in ids && id in before ==> Expiring(id) in after && after[Expiring(id)].content == before[id].content
  }

  lemma {:induction false} CopyRunMakesCopies(objects: Objects, order: seq<Key>, failing: set<Key>, k: Key)
    requires k in CopyRun(objects, order, failing).0
    ensures k in objects || IsCopyOf(k, Members(order))
    decreases |order|
  {
    if order != [] {
      var init, id := order[..|order| - 1], order[|order| - 1];
      assert order == init + [id];
      if k in CopyRun(objects, init, failing).0 {
        CopyRunMakesCopies(objects, init, failing, k);
        CopyOfEither(k, Members(init), {id});
        assert Members(order) == Members(init) + {id};
      }
    }
  }

  lemma RequestMakesCopies(objects: Objects, ids: seq<Key>, order: seq<Key>, faults: Faults, k: Key)
    requires Permutes(order, ids) && k in Request(objects, ids, order, faults).0
    ensures k in objects || IsCopyOf(k, Members(ids))
    ensures Request(objects, ids, order, faults).1 ==> k !in Members(ids)
  {
    PermutedMembers(order, ids);
    if |ids| <= MAX_REQUEST {
      CopyRunMakesCopies(objects, order, faults.copies, k);
    }
    hide CopyRun, Members;
  }

  /** A copy that is named in the slice of its file or a later one is gone in the end. */
  lemma {:induction false} ClashingCopyIsGone(
      before: Objects, slices: seq<seq<Key>>, orders: seq<seq<Key>>, faults: Faults, k: nat, l: nat, id: Key)
    requires Orders(orders, slices) && InOneSlice(slices) && BatchRun(before, slices, orders, faults).1
    requires k <= l < |slices| && id in slices[k] && Expiring(id) in slices[l]
    ensures Expiring(id) !in BatchRun(before, slices, orders, faults).0
    decreases |slices|
  {
    var n := |slices| - 1;
    var after := BatchRun(before, slices, orders, faults).0;
    var mid := BatchRun(before, slices[..n], orders[..n], faults).0;
    if Expiring(id) in after {
      RequestMakesCopies(mid, slices[n], orders[n], faults, Expiring(id));
      if l < n {
        ClashingCopyIsGone(before, slices[..n], orders[..n], faults, k, l, id);
        ExpiringIsInjective(OriginalOf(Expiring(id), Members(slices[n])), id);
      }
    }
    hide Request, Expiring;
  }

  /**
   Existing files that are each listed in one slice are all in the trash in the end, exactly when no copy of a file is
   named in its slice or a later one.
   */
  lemma {:induction false} BatchTrashesAllIff(before: Objects, slices: seq<seq<Key>>, orders: seq<seq<Key>>, faults: Faults)
    requires Orders(orders, slices) && InOneSlice(slices) && AllMembers(slices) <= before.Keys
    requires BatchRun(before, slices, orders, faults).1
    ensures AllTrashed(before, BatchRun(before, slices, orders, faults).0, AllMembers(slices)) <==> NoClash(slices)
  {
    if NoClash(slices) {
      BatchMovesIff(before, slices, orders, faults);
      TrashedContents(before, AllMembers(slices));
    } else {
      var k, l, id :| 0 <= k <= l < |slices| && id in slices[k] && Expiring(id) in slices[l];
      ClashingCopyIsGone(before, slices, orders, faults, k, l, id);
      SliceMember(slices, k, id);
    }
    hide BatchRun, Trashed, Expiring, AllMembers, InOneSlice;
  }

  /** What is under the name of a listed file stems from it, or from a listed file with a shorter name once it is gone. */
  ghost predicate Stems(before: Objects, ids: set<Key>, done: set<Key>, id: Key, content: string) {
    exists z :: z in ids && z in before && before[z].content == content && (z == id || |z| < |id|) && (id in done ==> z != id)
  }

  ghost predicate Traced(before: Objects, objects: Objects, ids: set<Key>, done: set<Key>) {
    forall id :: id in ids && id in objects ==> Stems(before, ids, done, id, objects[id].content)
  }

  lemma CopyStems(before: Objects, ids: set<Key>, done: set<Key>, id: Key, content: string)
    requires Stems(before, ids, done, id, content)
    ensures Stems(before, ids, done, Expiring(id), content)
  {
    var z :| z in ids && z in before && before[z].content == content && (z == id || |z| < |id|) && (id in done ==> z != id);
    assert |z| < |Expiring(id)|;
  }

  lemma {:induction false} CopyRunStaysTraced(
      before: Objects, objects: Objects, order: seq<Key>, failing: set<Key>, ids: set<Key>, done: set<Key>)
    requires Traced(before, objects, ids, done) && Members(order) <= ids
    ensures Traced(before, CopyRun(objects, order, failing).0, ids, done)
    decreases |order|
  {
    if order != [] {
      var init, id := order[..|order| - 1], order[|order| - 1];
      assert order == init + [id];
      assert Members(order) == Members(init) + {id};
      CopyRunStaysTraced(before, objects, init, failing, ids, done);
      var mid := CopyRun(objects, init, failing).0;
      hide Stems, Expiring;
      if id in mid {
        CopyStems(before, ids, done, id, mid[id].content);
      }
    }
  }

  lemma {:induction false} RequestStaysTraced(
      before: Objects, objects: Objects, slice: seq<Key>, order: seq<Key>, faults: Faults, ids: set<Key>, done: set<Key>)
    requires Traced(before, objects, ids, done) && Permutes(order, slice) && Members(slice) <= ids
    requires Request(objects, slice, order, faults).1
    ensures Traced(before, Request(objects, slice, order, faults).0, ids, done + Members(slice))
  {
    var after := Request(objects, slice, order, faults).0;
    PermutedMembers(order, slice);
    CopyRunStaysTraced(before, objects, order, faults.copies, ids, done);
    forall id | id in ids && id in after ensures Stems(before, ids, done + Members(slice), id, after[id].content) {
      assert id !in Members(slice);
      assert Stems(before, ids, done, id, after[id].content);
    }
  }

  lemma {:induction false} BatchStaysTraced(
      before: Objects, slices: seq<seq<Key>>, orders: seq<seq<Key>>, faults: Faults, ids: set<Key>)
    requires Orders(orders, slices) && AllMembers(slices) <= ids && ids <= before.Keys
    requires BatchRun(before, slices, orders, faults).1
    ensures Traced(before, BatchRun(before, slices, orders, faults).0, ids, AllMembers(slices))
    decreases |slices|
  {
    if slices == [] {
      forall id | id in ids ensures Stems(before, ids, {}, id, before[id].content) {
      }
      assert AllMembers(slices) == {};
    } else {
      var n := |slices| - 1;
      AllButLast(slices);
      BatchStaysTraced(before, slices[..n], orders[..n], faults, ids);
      var mid := BatchRun(before, slices[..n], orders[..n], faults).0;
      RequestStaysTraced(before, mid, slices[n], orders[n], faults, ids, AllMembers(slices[..n]));
    }
    hide Request, Stems, AllMembers;
  }

  /** No two of the files hold the same. */
  ghost predicate DistinctContents(objects: Objects, ids: set<Key>)
    requires ids <= objects.Keys
  {
    forall a, b :: a in ids && b in ids && objects[a].content == objects[b].content ==> a == b
  }

  /**
   So unless files hold the same, moving existing files that are each listed in one slice keeps their content exactly
   when no copy of a file is named in its slice or a later one.
   */
  lemma {:induction false} BatchConservesIff(before: Objects, slices: seq<seq<Key>>, orders: seq<seq<Key>>, faults: Faults)
    requires Orders(orders, slices) && InOneSlice(slices) && AllMembers(slices) <= before.Keys
    requires DistinctContents(before, AllMembers(slices)) && BatchRun(before, slices, orders, faults).1
    ensures Conserved(before, BatchRun(before, slices, orders, faults).0, AllMembers(slices)) <==> NoClash(slices)
  {
    var after, ids := BatchRun(before, slices, orders, faults).0, AllMembers(slices);
    if NoClash(slices) {
      BatchMovesIff(before, slices, orders, faults);
    } else {
      var k, l, id :| 0 <= k <= l < |slices| && id in slices[k] && Expiring(id) in slices[l];
      ClashingCopyIsGone(before, slices, orders, faults, k, l, id);
      SliceMember(slices, k, id);
      BatchStaysTraced(before, slices, orders, faults, ids);
      if id in after {
        assert Stems(before, ids, ids, id, after[id].content);
      }
      assert !IsKept(before, after, id);
    }
    hide BatchRun, Expiring, AllMembers, InOneSlice, Conserved;
  }

  lemma NamedEarlierIsNoClash()
    ensures Batches(["expiring_letter", "letter"], 1) == [["expiring_letter"], ["letter"]]
    ensures NoClash([["expiring_letter"], ["letter"]])
  {
    var ids, slices := ["expiring_letter", "letter"], [["expiring_letter"], ["letter"]];
    assert ids[..1] == ["expiring_letter"] && ids[1..] == ["letter"];
    assert Expiring("letter") == "expiring_letter" && |Expiring("expiring_letter")| == 24;
  }

  /** The same two files are safe when the one that is named like the copy is moved by an earlier request. */
  lemma {:induction false} CopyNamedEarlierIsSafe(letter: Stored, other: Stored)
    ensures var before := map["letter" := letter, "expiring_letter" := other];
            var slices := Batches(["expiring_letter", "letter"], 1);
            var (after, ok) := BatchRun(before, slices, slices, Faults({}, {}));
            ok && Conserved(before, after, before.Keys)
  {
    var before := map["letter" := letter, "expiring_letter" := other];
    var slices := [["expiring_letter"], ["letter"]];
    NamedEarlierIsNoClash();
    hide BatchRun, Conserved, Batches, NoClash, Expiring, IsCopyOf;
    assert "expiring_letter" in slices[0] && "letter" in slices[1];
    assert AllMembers(slices) == before.Keys;
    BatchMovesIff(before, slices, slices, Faults({}, {}));
  }

  // ---- a whole batch, said of the keys alone ----

  /** No listed file is named like the copy of another. */
  ghost predicate NamedApart(ids: seq<Key>) {
    forall a, b :: a in ids && b in ids ==> b != "expiring_" + a
  }

  /** No file is listed twice. */
  ghost predicate ListedOnce(ids: seq<Key>) {
    forall i, j :: 0 <= i < j < |ids| ==> ids[i] != ids[j]
  }

  /** Every file is there under its own name or under that of its copy. */
  ghost predicate NothingIsLost(before: Objects, after: Objects, ids: seq<Key>) {
    forall id :: id in ids && id in before ==>
      || (id in after && after[id] == before[id])
      || ("expiring_" + id in after && after["expiring_" + id].content == before[id].content)
  }

  /** All files are there as expiring copies only. */
  ghost predicate AllMoved(before: Objects, after: Objects, ids: seq<Key>) {
    forall id :: id in ids && id in before ==>
      id !in after && "expiring_" + id in after && after["expiring_" + id] == Stored(before[id].content, true)
  }

  /** No key but those of the files and of their copies has changed. */
  ghost predicate RestIsUnchanged(before: Objects, after: Objects, ids: seq<Key>) {
    forall k :: k !in ids && (forall id :: id in ids ==> k != "expiring_" + id) ==>
      (k in after <==> k in before) && (k in before ==> after[k] == before[k])
  }

  lemma {:induction false} FlattenMembers(slices: seq<seq<Key>>, id: Key)
    ensures id in Flatten(slices) <==> id in AllMembers(slices)
  {
    if slices != [] {
      FlattenMembers(slices[1..], id);
      assert slices == [slices[0]] + slices[1..];
      assert id in AllMembers(slices) <==> id in slices[0] || id in AllMembers(slices[1..]);
    }
  }

  lemma OnceInParts(a: seq<Key>, b: seq<Key>)
    requires ListedOnce(a + b)
    ensures ListedOnce(b) && forall id :: id in a ==> id !in b
  {
    var all := a + b;
    forall i, j | 0 <= i < j < |b| ensures b[i] != b[j] {
      assert all[|a| + i] == b[i] && all[|a| + j] == b[j];
    }
    forall i, j | 0 <= i < |a| && 0 <= j < |b| ensures a[i] != b[j] {
      assert all[i] == a[i] && all[|a| + j] == b[j];
    }
  }

  lemma {:induction false} FlattenOnce(slices: seq<seq<Key>>)
    requires ListedOnce(Flatten(slices))
    ensures InOneSlice(slices)
  {
    if slices != [] {
      var first, rest := slices[0], slices[1..];
      OnceInParts(first, Flatten(rest));
      FlattenOnce(rest);
      forall k, l, id | 0 <= k < l < |slices| && id in slices[k] ensures id !in slices[l] {
        assert rest[l - 1] == slices[l];
        if k == 0 {
          FlattenMembers(rest, id);
          assert id !in AllMembers(rest) && rest[l - 1] in rest;
        } else {
          assert rest[k - 1] == slices[k];
        }
      }
    }
  }

  /**
   The trash as a whole, for files that are listed once and of which none is named like the copy of another: they are all
   moved exactly when they exist, the requests are not too big and no call fails, and then each is there as its expiring
   copy only; an error, wherever it happens, loses nothing.
   */
  lemma {:induction false} BatchIsAllOrSafe(before: Objects, ids: seq<Key>, limit: nat, orders: seq<seq<Key>>, faults: Faults)
    requires limit >= 1 && Orders(orders, Batches(ids, limit)) && NamedApart(ids) && ListedOnce(ids)
    ensures var (after, ok) := BatchRun(before, Batches(ids, limit), orders, faults);
            && (ok <==> (limit <= 1000 || |ids| <= 1000) &&
                        forall id :: id in ids ==> id in before && id !in faults.copies && id !in faults.deletions)
            && (ok ==> AllMoved(before, after, ids))
            && NothingIsLost(before, after, ids) && RestIsUnchanged(before, after, ids)
  {
    var slices := Batches(ids, limit);
    var (after, ok) := BatchRun(before, slices, orders, faults);
    BatchesPartition(ids, limit);
    forall id ensures id in ids <==> id in AllMembers(slices) {
      FlattenMembers(slices, id);
    }
    FlattenOnce(slices);
    SlicesFitIff(ids, limit);
    assert NoClash(slices) by {
      ApartIsNoClash(slices, ids);
    }
    BatchMovesIff(before, slices, orders, faults);
    CanMoveAllIff(before, slices, ids, faults);
    if ok {
      TrashedContents(before, AllMembers(slices));
      NoneIsACopy(slices, ids);
    }
    hide BatchRun, Trashed, AllMembers, Batches, Orders, CanMoveInBatches, Conserved, NoClash, InOneSlice, Flatten;
    assert NothingIsLost(before, after, ids) by {
      ConservedIsNothingLost(before, after, AllMembers(slices), ids);
    }
    assert RestIsUnchanged(before, after, ids) by {
      UnchangedIsUnchanged(before, after, AllMembers(slices), ids);
    }
  }

  lemma ApartIsNoClash(slices: seq<seq<Key>>, ids: seq<Key>)
    requires NamedApart(ids) && forall id :: id in ids <==> id in AllMembers(slices)
    ensures NoClash(slices)
  {
    forall k, l, id | 0 <= k <= l < |slices| && id in slices[k] ensures Expiring(id) !in slices[l] {
      SliceMember(slices, k, id);
      if Expiring(id) in slices[l] {
        SliceMember(slices, l, Expiring(id));
      }
    }
  }

  lemma NoneIsACopy(slices: seq<seq<Key>>, ids: seq<Key>)
    requires NamedApart(ids) && forall id :: id in ids <==> id in AllMembers(slices)
    ensures forall id :: id in ids ==> !IsCopyOf(id, AllMembers(slices))
  {
    hide AllMembers;
  }

  lemma CanMoveAllIff(objects: Objects, slices: seq<seq<Key>>, ids: seq<Key>, faults: Faults)
    requires InOneSlice(slices) && forall id :: id in ids <==> id in AllMembers(slices)
    ensures CanMoveInBatches(objects, slices, faults) <==>
              && (forall slice :: slice in slices ==> |slice| <= 1000)
              && forall id :: id in ids ==> id in objects && id !in faults.copies && id !in faults.deletions
  {
    if CanMoveInBatches(objects, slices, faults) {
      forall id | id in ids ensures id in objects && id !in faults.copies && id !in faults.deletions {
        var k := SliceOf(slices, id);
        assert CanMove(objects, slices[k], faults) && id in Members(slices[k]);
      }
    }
    if forall id :: id in ids ==> id in objects && id !in faults.copies && id !in faults.deletions {
      forall slice, id | slice in slices && id in slice
        ensures id in objects && id !in faults.copies && id !in faults.deletions
      {
        assert id in AllMembers(slices);
      }
    }
    hide InOneSlice, AllMembers;
  }

  lemma ConservedIsNothingLost(before: Objects, after: Objects, all: set<Key>, ids: seq<Key>)
    requires Conserved(before, after, all) && forall id :: id in ids ==> id in all
    ensures NothingIsLost(before, after, ids)
  {
  }

  lemma UnchangedIsUnchanged(before: Objects, after: Objects, all: set<Key>, ids: seq<Key>)
    requires OthersUnchanged(before, after, all) && forall id :: id in ids <==> id in all
    ensures RestIsUnchanged(before, after, ids)
  {
  }
}
