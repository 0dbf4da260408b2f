/** Mirroring the rss feeds of a school into its news. */
module RssNews {
  import opened Wrappers
  import opened Sequences

  datatype Source = Rss | Internal

  datatype Fields = Fields(title: string, content: string, description: string, date: string)

  datatype News = News(id: nat, schoolId: string, externalId: Option<string>, source: Source, fields: Fields)

  datatype Item = Item(guid: string, title: string, content: string, date: string)

  /** A feed as the parser delivers it; `written` items are stored before an error stops it, if one does. */
  datatype Feed = Feed(description: string, items: seq<Item>, written: nat)

  /** The news collection in its natural order, and the next id the database assigns. */
  datatype Store = Store(news: seq<News>, nextId: nat)

  predicate Succeeds(f: Feed) {
    f.written >= |f.items|
  }

  function FieldsOf(f: Feed, item: Item): Fields {
    Fields(item.title, item.content, f.description, item.date)
  }

  predicate Matches(n: News, schoolId: string, guid: string) {
    n.schoolId == schoolId && n.externalId == Some(guid)
  }

  /** The position of the first match, or the length when there is none. */
  function First(news: seq<News>, schoolId: string, guid: string): (i: nat)
    ensures i <= |news|
    ensures i < |news| ==> Matches(news[i], schoolId, guid)
    ensures forall j :: 0 <= j < i ==> !Matches(news[j], schoolId, guid)
  {
    if news == [] then 0
    else if Matches(news[0], schoolId, guid) then 0
    else
      var rest := First(news[1..], schoolId, guid);
      assert forall j :: 0 < j < |news| ==> news[j] == news[1..][j - 1];
      1 + rest
  }

  /** One write: the news of a guid get these fields. */
  datatype Write = Write(guid: string, fields: Fields)

  /** Find the first match and update it, or else insert. */
  function Upsert(s: Store, schoolId: string, guid: string, fields: Fields): Store {
    var i := First(s.news, schoolId, guid);
    if i < |s.news| then s.(news := s.news[i := s.news[i].(source := Rss, fields := fields)])
    else Store(s.news + [News(s.nextId, schoolId, Some(guid), Rss, fields)], s.nextId + 1)
  }

  function UpsertAll(s: Store, schoolId: string, writes: seq<Write>): Store {
    if writes == [] then s
    else
      var last := |writes| - 1;
      Upsert(UpsertAll(s, schoolId, writes[..last]), schoolId, writes[last].guid, writes[last].fields)
  }

  function WriteFor(f: Feed): Item -> Write {
    (item: Item) => Write(item.guid, FieldsOf(f, item))
  }

  function WritesOf(f: Feed): seq<Write> {
    Map(WriteFor(f), Take(f.written, f.items))
  }

  function AllWrites(feeds: seq<Feed>): seq<Write> {
    if feeds == [] then [] else AllWrites(feeds[..|feeds| - 1]) + WritesOf(feeds[|feeds| - 1])
  }

  function Guid(item: Item): string {
    item.guid
  }

  /** The guids of the feeds that succeed. */
  function KeptGuids(feeds: seq<Feed>): seq<string> {
    if feeds == [] then []
    else
      var last := feeds[|feeds| - 1];
      KeptGuids(feeds[..|feeds| - 1]) + if Succeeds(last) then Map(Guid, last.items) else []
  }

  /** The number of feeds that are reported as errors. */
  function Failures(feeds: seq<Feed>): nat {
    if feeds == [] then 0 else Failures(feeds[..|feeds| - 1]) + if Succeeds(feeds[|feeds| - 1]) then 0 else 1
  }

  /** The ids of the news that guids stand for. */
  function Checked(news: seq<News>, schoolId: string, guids: seq<string>): set<nat> {
    set k | 0 <= k < |guids| && First(news, schoolId, guids[k]) < |news| :: news[First(news, schoolId, guids[k])].id
  }

  function Stays(schoolId: string, checked: set<nat>): News -> bool {
    (n: News) => n.id in checked || n.source != Rss || n.schoolId != schoolId
  }

  /** The news after the run: all writes, and then the deletion of rss news that have not been checked. */
  function Processed(s: Store, schoolId: string, feeds: seq<Feed>): Store {
    var t := UpsertAll(s, schoolId, AllWrites(feeds));
    t.(news := Filter(Stays(schoolId, Checked(t.news, schoolId, KeptGuids(feeds))), t.news))
  }

  ghost predicate Valid(s: Store) {
    && (forall i :: 0 <= i < |s.news| ==> s.news[i].id < s.nextId)
    && (forall i, j :: 0 <= i < j < |s.news| ==> s.news[i].id != s.news[j].id)
  }

  // ---- one write ----

  lemma {:induction false} FirstIs(news: seq<News>, schoolId: string, guid: string, i: nat)
    requires i < |news| && Matches(news[i], schoolId, guid) && forall j :: 0 <= j < i ==> !Matches(news[j], schoolId, guid)
    ensures First(news, schoolId, guid) == i
  {
  }

  /** What a write leaves: positions and identities stay, only the first match changes, and it carries the fields. */
  lemma {:induction false} UpsertFacts(s: Store, schoolId: string, guid: string, fields: Fields)
    requires Valid(s)
    ensures var t := Upsert(s, schoolId, guid, fields);
            var i := First(s.news, schoolId, guid);
            && Valid(t) && |s.news| <= |t.news| <= |s.news| + 1 && (|t.news| > |s.news| <==> i == |s.news|)
            && (forall j :: 0 <= j < |s.news| ==>
                  t.news[j] == (if j == i then s.news[j].(source := Rss, fields := fields) else s.news[j]))
            && First(t.news, schoolId, guid) == i < |t.news|
            && t.news[i].source == Rss && t.news[i].fields == fields && t.news[i].externalId == Some(guid) && t.news[i].schoolId == schoolId
  {
    var t := Upsert(s, schoolId, guid, fields);
    FirstIs(t.news, schoolId, guid, First(s.news, schoolId, guid));
  }

  lemma {:induction false} UpsertKeepsFirst(s: Store, schoolId: string, guid: string, fields: Fields, other: string)
    requires Valid(s) && other != guid
    ensures var t := Upsert(s, schoolId, guid, fields);
            var k := First(s.news, schoolId, other);
            if k < |s.news| then First(t.news, schoolId, other) == k && t.news[k] == s.news[k]
            else First(t.news, schoolId, other) == |t.news|
  {
    UpsertFacts(s, schoolId, guid, fields);
    var t := Upsert(s, schoolId, guid, fields);
    hide Upsert;
    var k := First(s.news, schoolId, other);
    if k < |s.news| {
      FirstIs(t.news, schoolId, other, k);
    }
  }

  // ---- all writes ----

  /** The last write of a guid. */
  function Last(writes: seq<Write>, guid: string): Option<Fields> {
    if writes == [] then None
    else
      var last := |writes| - 1;
      if writes[last].guid == guid then Some(writes[last].fields) else Last(writes[..last], guid)
  }

  lemma {:induction false} WrittenHasLast(writes: seq<Write>, k: nat)
    requires k < |writes|
    ensures Last(writes, writes[k].guid).Some?
  {
    var last := |writes| - 1;
    if writes[last].guid != writes[k].guid {
      WrittenHasLast(writes[..last], k);
    }
  }

  /** A news item of before the run, as the writes leave it. */
  function Updated(s: Store, schoolId: string, writes: seq<Write>, j: nat): News
    requires j < |s.news|
  {
    var n := s.news[j];
    if n.schoolId == schoolId && n.externalId.Some? && First(s.news, schoolId, n.externalId.value) == j && Last(writes, n.externalId.value).Some?
    then n.(source := Rss, fields := Last(writes, n.externalId.value).value)
    else n
  }

  /** A news item the run has inserted. */
  predicate Inserted(s: Store, t: Store, schoolId: string, writes: seq<Write>, j: nat)
    requires j < |t.news|
  {
    var n := t.news[j];
    && n.schoolId == schoolId && n.source == Rss && n.id >= s.nextId && n.externalId.Some?
    && First(t.news, schoolId, n.externalId.value) == j
    && Last(writes, n.externalId.value) == Some(n.fields)
  }

  /** Where the first match of a guid is after the writes. */
  predicate Located(s: Store, t: Store, schoolId: string, writes: seq<Write>, guid: string) {
    var before, after := First(s.news, schoolId, guid), First(t.news, schoolId, guid);
    if before < |s.news| then after == before && after < |t.news|
    else if Last(writes, guid).Some? then |s.news| <= after < |t.news|
    else after == |t.news|
  }

  /** The writes update the first match of every written guid in place, or insert one. */
  ghost predicate Mirrors(s: Store, t: Store, schoolId: string, writes: seq<Write>) {
    && Valid(t) && |s.news| <= |t.news| && s.nextId <= t.nextId
    && (forall guid :: Located(s, t, schoolId, writes, guid))
    && (forall j :: 0 <= j < |s.news| ==> t.news[j] == Updated(s, schoolId, writes, j))
    && (forall j :: |s.news| <= j < |t.news| ==> Inserted(s, t, schoolId, writes, j))
  }

  lemma {:induction false} LastOfExtended(writes: seq<Write>, w: Write, guid: string)
    ensures Last(writes + [w], guid) == if w.guid == guid then Some(w.fields) else Last(writes, guid)
  {
  }

  lemma UpsertLocates(s: Store, t: Store, schoolId: string, writes: seq<Write>, w: Write, guid: string)
    requires Mirrors(s, t, schoolId, writes)
    ensures Located(s, Upsert(t, schoolId, w.guid, w.fields), schoolId, writes + [w], guid)
  {
    assert Located(s, t, schoolId, writes, guid);
    LastOfExtended(writes, w, guid);
    UpsertFacts(t, schoolId, w.guid, w.fields);
    if guid != w.guid {
      UpsertKeepsFirst(t, schoolId, w.guid, w.fields, guid);
    }
    hide Upsert, First, Last, Mirrors;
  }

  lemma UpsertUpdates(s: Store, t: Store, schoolId: string, writes: seq<Write>, w: Write, j: nat)
    requires Mirrors(s, t, schoolId, writes) && j < |s.news|
    ensures var u := Upsert(t, schoolId, w.guid, w.fields);
            j < |u.news| && u.news[j] == Updated(s, schoolId, writes + [w], j)
  {
    assert t.news[j] == Updated(s, schoolId, writes, j);
    assert Located(s, t, schoolId, writes, w.guid);
    UpsertFacts(t, schoolId, w.guid, w.fields);
    if s.news[j].externalId.Some? {
      LastOfExtended(writes, w, s.news[j].externalId.value);
    }
    hide Upsert, Last, Mirrors, Inserted;
  }

  lemma UpsertInserts(s: Store, t: Store, schoolId: string, writes: seq<Write>, w: Write, j: nat)
    requires Mirrors(s, t, schoolId, writes)
    requires |s.news| <= j < |Upsert(t, schoolId, w.guid, w.fields).news|
    ensures Inserted(s, Upsert(t, schoolId, w.guid, w.fields), schoolId, writes + [w], j)
  {
    var u := Upsert(t, schoolId, w.guid, w.fields);
    assert Located(s, t, schoolId, writes, w.guid);
    UpsertFacts(t, schoolId, w.guid, w.fields);
    assert |u.news| > |t.news| ==> u.news[|t.news|].id == t.nextId;
    if j < |t.news| {
      assert Inserted(s, t, schoolId, writes, j);
      var guid := t.news[j].externalId.value;
      if guid != w.guid {
        UpsertKeepsFirst(t, schoolId, w.guid, w.fields, guid);
      }
      LastOfExtended(writes, w, guid);
    } else {
      LastOfExtended(writes, w, w.guid);
    }
    hide Upsert, Last, Mirrors, First;
  }

  lemma UpsertMirrors(s: Store, t: Store, schoolId: string, writes: seq<Write>, w: Write)
    requires Mirrors(s, t, schoolId, writes)
    ensures Mirrors(s, Upsert(t, schoolId, w.guid, w.fields), schoolId, writes + [w])
  {
    var u := Upsert(t, schoolId, w.guid, w.fields);
    UpsertFacts(t, schoolId, w.guid, w.fields);
    assert t.nextId <= u.nextId;
    forall guid ensures Located(s, u, schoolId, writes + [w], guid) {
      UpsertLocates(s, t, schoolId, writes, w, guid);
    }
    forall j | 0 <= j < |s.news| ensures u.news[j] == Updated(s, schoolId, writes + [w], j) {
      UpsertUpdates(s, t, schoolId, writes, w, j);
    }
    forall j | |s.news| <= j < |u.news| ensures Inserted(s, u, schoolId, writes + [w], j) {
      UpsertInserts(s, t, schoolId, writes, w, j);
    }
    hide Upsert, First, Last, Located, Updated, Inserted;
  }

  lemma {:induction false} UpsertAllMirrors(s: Store, schoolId: string, writes: seq<Write>)
    requires Valid(s)
    ensures Mirrors(s, UpsertAll(s, schoolId, writes), schoolId, writes)
  {
    if writes != [] {
      hide Mirrors, Valid, Upsert;
      var last := |writes| - 1;
      UpsertAllMirrors(s, schoolId, writes[..last]);
      UpsertMirrors(s, UpsertAll(s, schoolId, writes[..last]), schoolId, writes[..last], writes[last]);
      assert writes[..last] + [writes[last]] == writes;
    }
  }

  // ---- the program ----

  class Job {
    var store: Store

    constructor (store: Store)
      ensures this.store == store
    {
      this.store := store;
    }

    /** The ids of the news written; they count only when the feed succeeds. */
    method HandleFeed(f: Feed, schoolId: string) returns (ok: bool, checked: set<nat>)
      requires Valid(store)
      modifies this
      ensures store == UpsertAll(old(store), schoolId, WritesOf(f)) && Valid(store)
      ensures ok <==> Succeeds(f)
      ensures ok ==> checked == Checked(store.news, schoolId, Map(Guid, f.items)) && Present(store.news, schoolId, Map(Guid, f.items))
    {
      checked := {};
      ghost var writes, guids := WritesOf(f), Map(Guid, f.items);
      var i := 0;
      while i < |f.items|
        invariant i <= |f.items| && (i < |f.items| ==> i <= f.written)
        invariant i <= |writes| && store == UpsertAll(old(store), schoolId, writes[..i]) && Valid(store)
        invariant Present(store.news, schoolId, guids[..i]) && checked == Checked(store.news, schoolId, guids[..i])
      {
        if i == f.written {
          assert writes[..i] == writes;
          return false, {};
        }
        hide UpsertAll, Upsert, First, Checked, Present, Valid, WritesOf;
        ItemStep(old(store), store, schoolId, f, i);
        store := Upsert(store, schoolId, f.items[i].guid, FieldsOf(f, f.items[i]));
        checked := checked + {store.news[First(store.news, schoolId, f.items[i].guid)].id};
        i := i + 1;
      }
      assert guids[..i] == guids && writes[..i] == writes;
      hide UpsertAll, Upsert, First, Checked, Present, Valid, WritesOf;
      return true, checked;
    }

    method HandleFeeds(schoolId: string, feeds: seq<Feed>) returns (failed: nat, allChecked: set<nat>)
      requires Valid(store)
      modifies this
      ensures store == UpsertAll(old(store), schoolId, AllWrites(feeds))
      ensures allChecked == Checked(store.news, schoolId, KeptGuids(feeds))
      ensures failed == Failures(feeds)
    {
      allChecked, failed := {}, 0;
      ghost var start := store;
      NoFeeds(start, schoolId, feeds);
      hide UpsertAll, AllWrites, KeptGuids, First, Checked, Present, Valid, WritesOf, Succeeds, Failures;
      for i := 0 to |feeds|
        invariant Valid(store) && store == UpsertAll(start, schoolId, AllWrites(feeds[..i]))
        invariant Present(store.news, schoolId, KeptGuids(feeds[..i]))
        invariant allChecked == Checked(store.news, schoolId, KeptGuids(feeds[..i]))
        invariant failed == Failures(feeds[..i])
      {
        FeedStep(start, store, schoolId, feeds, i);
        var ok, checked := HandleFeed(feeds[i], schoolId);
        if ok {
          allChecked := allChecked + checked;
        } else {
          failed := failed + 1;
        }
      }
      assert feeds[..|feeds|] == feeds;
    }

    /** When the school cannot be saved, the news are written but none is deleted. */
    method ProcessSchool(schoolId: string, feeds: seq<Feed>, saveFails: bool) returns (failed: nat, ok: bool)
      requires Valid(store)
      modifies this
      ensures store == if saveFails then Written(old(store), schoolId, feeds) else Processed(old(store), schoolId, feeds)
      ensures failed == Failures(feeds) && (ok <==> !saveFails)
    {
      var allChecked;
      failed, allChecked := HandleFeeds(schoolId, feeds);
      hide UpsertAll, AllWrites, KeptGuids, Checked;
      if saveFails {
        return failed, false;
      }
      store := store.(news := Filter(Stays(schoolId, allChecked), store.news));
      return failed, true;
    }
  }

  lemma {:induction false} NoFeeds(s: Store, schoolId: string, feeds: seq<Feed>)
    ensures UpsertAll(s, schoolId, AllWrites(feeds[..0])) == s
    ensures Present(s.news, schoolId, KeptGuids(feeds[..0])) && Checked(s.news, schoolId, KeptGuids(feeds[..0])) == {}
    ensures Failures(feeds[..0]) == 0
  {
  }

  /** What one more item adds to the writes and to the checked ids. */
  lemma {:induction false} ItemStep(start: Store, s: Store, schoolId: string, f: Feed, i: nat)
    requires i < |f.items| && i < f.written && i <= |WritesOf(f)|
    requires Valid(s) && s == UpsertAll(start, schoolId, WritesOf(f)[..i]) && Present(s.news, schoolId, Map(Guid, f.items)[..i])
    ensures var t, guid, guids := Upsert(s, schoolId, f.items[i].guid, FieldsOf(f, f.items[i])), f.items[i].guid, Map(Guid, f.items);
            && i + 1 <= |WritesOf(f)| && t == UpsertAll(start, schoolId, WritesOf(f)[..i + 1]) && Valid(t)
            && First(t.news, schoolId, guid) < |t.news| && Present(t.news, schoolId, guids[..i + 1])
            && Checked(t.news, schoolId, guids[..i + 1]) ==
                 Checked(s.news, schoolId, guids[..i]) + {t.news[First(t.news, schoolId, guid)].id}
  {
    var guids, writes := Map(Guid, f.items), WritesOf(f);
    assert i < |writes| && writes[i] == Write(f.items[i].guid, FieldsOf(f, f.items[i]));
    assert guids[..i + 1] == guids[..i] + [f.items[i].guid];
    hide UpsertAll, Upsert, First, Checked, Present, Valid, WritesOf;
    UpsertFacts(s, schoolId, f.items[i].guid, FieldsOf(f, f.items[i]));
    CheckedGrows(s, schoolId, f.items[i].guid, FieldsOf(f, f.items[i]), guids[..i]);
    UpsertAllExtends(start, schoolId, writes, i);
  }

  /** What one more feed adds to the writes and to the checked ids. */
  lemma {:induction false} FeedStep(start: Store, s: Store, schoolId: string, feeds: seq<Feed>, i: nat)
    requires i < |feeds| && Valid(s) && s == UpsertAll(start, schoolId, AllWrites(feeds[..i]))
    requires Present(s.news, schoolId, KeptGuids(feeds[..i]))
    ensures var t, own := UpsertAll(s, schoolId, WritesOf(feeds[i])), Map(Guid, feeds[i].items);
            && t == UpsertAll(start, schoolId, AllWrites(feeds[..i + 1])) && Valid(t)
            && Failures(feeds[..i + 1]) == Failures(feeds[..i]) + (if Succeeds(feeds[i]) then 0 else 1)
            && (!Succeeds(feeds[i]) ==>
                  Present(t.news, schoolId, KeptGuids(feeds[..i + 1])) &&
                  Checked(t.news, schoolId, KeptGuids(feeds[..i + 1])) == Checked(s.news, schoolId, KeptGuids(feeds[..i])))
            && (Succeeds(feeds[i]) && Present(t.news, schoolId, own) ==>
                  Present(t.news, schoolId, KeptGuids(feeds[..i + 1])) &&
                  Checked(t.news, schoolId, KeptGuids(feeds[..i + 1])) ==
                    Checked(s.news, schoolId, KeptGuids(feeds[..i])) + Checked(t.news, schoolId, own))
  {
    var kept, own := KeptGuids(feeds[..i]), Map(Guid, feeds[i].items);
    assert feeds[..i + 1][..i] == feeds[..i];
    assert AllWrites(feeds[..i + 1]) == AllWrites(feeds[..i]) + WritesOf(feeds[i]);
    assert KeptGuids(feeds[..i + 1]) == kept + if Succeeds(feeds[i]) then own else [];
    assert kept + [] == kept;
    hide UpsertAll, AllWrites, KeptGuids, First, Checked, Present, Valid, WritesOf;
    UpsertAllAppend(start, schoolId, AllWrites(feeds[..i]), WritesOf(feeds[i]));
    CheckedStable(s, schoolId, WritesOf(feeds[i]), kept);
    CheckedAppend(UpsertAll(s, schoolId, WritesOf(feeds[i])).news, schoolId, kept, own);
  }

  ghost predicate Present(news: seq<News>, schoolId: string, guids: seq<string>) {
    forall k :: 0 <= k < |guids| ==> First(news, schoolId, guids[k]) < |news|
  }

  lemma {:induction false} UpsertAllExtends(s: Store, schoolId: string, writes: seq<Write>, i: nat)
    requires i < |writes|
    ensures UpsertAll(s, schoolId, writes[..i + 1]) == Upsert(UpsertAll(s, schoolId, writes[..i]), schoolId, writes[i].guid, writes[i].fields)
  {
    assert writes[..i + 1][..i] == writes[..i];
  }

  lemma {:induction false} UpsertAllAppend(s: Store, schoolId: string, a: seq<Write>, b: seq<Write>)
    ensures UpsertAll(s, schoolId, a + b) == UpsertAll(UpsertAll(s, schoolId, a), schoolId, b)
  {
    hide Upsert;
    if b == [] {
      assert a + b == a;
    } else {
      var last := |b| - 1;
      assert (a + b)[..|a + b| - 1] == a + b[..last];
      UpsertAllAppend(s, schoolId, a, b[..last]);
    }
  }

  lemma {:induction false} UpsertKeepsId(s: Store, schoolId: string, guid: string, fields: Fields, other: string)
    requires Valid(s) && First(s.news, schoolId, other) < |s.news|
    ensures var t := Upsert(s, schoolId, guid, fields);
            First(t.news, schoolId, other) == First(s.news, schoolId, other) < |t.news| &&
            t.news[First(t.news, schoolId, other)].id == s.news[First(s.news, schoolId, other)].id
  {
    UpsertFacts(s, schoolId, guid, fields);
    if other != guid {
      UpsertKeepsFirst(s, schoolId, guid, fields, other);
    }
    hide Upsert, First;
  }

  lemma UpsertKeepsChecked(s: Store, schoolId: string, guid: string, fields: Fields, guids: seq<string>)
    requires Valid(s) && Present(s.news, schoolId, guids)
    ensures var t := Upsert(s, schoolId, guid, fields);
            Present(t.news, schoolId, guids) && Checked(t.news, schoolId, guids) == Checked(s.news, schoolId, guids)
  {
    var t := Upsert(s, schoolId, guid, fields);
    forall k | 0 <= k < |guids|
      ensures First(t.news, schoolId, guids[k]) < |t.news| && First(t.news, schoolId, guids[k]) == First(s.news, schoolId, guids[k])
      ensures t.news[First(t.news, schoolId, guids[k])].id == s.news[First(s.news, schoolId, guids[k])].id
    {
      UpsertKeepsId(s, schoolId, guid, fields, guids[k]);
    }
    hide Upsert, First;
  }

  lemma {:induction false} CheckedGrows(s: Store, schoolId: string, guid: string, fields: Fields, guids: seq<string>)
    requires Valid(s) && Present(s.news, schoolId, guids)
    ensures var t := Upsert(s, schoolId, guid, fields);
            && First(t.news, schoolId, guid) < |t.news| && Present(t.news, schoolId, guids + [guid])
            && Checked(t.news, schoolId, guids + [guid]) == Checked(s.news, schoolId, guids) + {t.news[First(t.news, schoolId, guid)].id}
  {
    UpsertKeepsChecked(s, schoolId, guid, fields, guids);
    UpsertFacts(s, schoolId, guid, fields);
    CheckedAppend(Upsert(s, schoolId, guid, fields).news, schoolId, guids, [guid]);
    hide Upsert, First;
    var t := Upsert(s, schoolId, guid, fields);
    assert Checked(t.news, schoolId, [guid]) == {t.news[First(t.news, schoolId, guid)].id} by {
      assert [guid][0] == guid;
    }
  }

  lemma {:induction false} CheckedStable(s: Store, schoolId: string, writes: seq<Write>, guids: seq<string>)
    requires Valid(s) && Present(s.news, schoolId, guids)
    ensures var t := UpsertAll(s, schoolId, writes);
            Valid(t) && Present(t.news, schoolId, guids) && Checked(t.news, schoolId, guids) == Checked(s.news, schoolId, guids)
  {
    hide Upsert, First, Checked, Present, Valid;
    if writes != [] {
      var last := |writes| - 1;
      CheckedStable(s, schoolId, writes[..last], guids);
      var t := UpsertAll(s, schoolId, writes[..last]);
      UpsertFacts(t, schoolId, writes[last].guid, writes[last].fields);
      UpsertKeepsChecked(t, schoolId, writes[last].guid, writes[last].fields, guids);
    }
  }

  lemma CheckedAppend(news: seq<News>, schoolId: string, a: seq<string>, b: seq<string>)
    ensures Checked(news, schoolId, a + b) == Checked(news, schoolId, a) + Checked(news, schoolId, b)
    ensures Present(news, schoolId, a) && Present(news, schoolId, b) ==> Present(news, schoolId, a + b)
  {
    hide First;
    var both := a + b;
    forall id | id in Checked(news, schoolId, a) ensures id in Checked(news, schoolId, both) {
      var k :| 0 <= k < |a| && First(news, schoolId, a[k]) < |news| && id == news[First(news, schoolId, a[k])].id;
      assert both[k] == a[k];
    }
    forall id | id in Checked(news, schoolId, b) ensures id in Checked(news, schoolId, both) {
      var k :| 0 <= k < |b| && First(news, schoolId, b[k]) < |news| && id == news[First(news, schoolId, b[k])].id;
      assert both[|a| + k] == b[k];
    }
  }

  // ---- what a run achieves ----

  lemma FeedGuidIsWritten(f: Feed, guid: string) returns (k: nat)
    requires Succeeds(f) && guid in Map(Guid, f.items)
    ensures k < |WritesOf(f)| && WritesOf(f)[k].guid == guid
  {
    var guids := Map(Guid, f.items);
    k :| 0 <= k < |guids| && guids[k] == guid;
    assert Take(f.written, f.items) == f.items;
  }

  lemma {:induction false} KeptIsWritten(feeds: seq<Feed>, guid: string) returns (k: nat)
    requires guid in KeptGuids(feeds)
    ensures k < |AllWrites(feeds)| && AllWrites(feeds)[k].guid == guid
  {
    hide WritesOf, Succeeds;
    var n := |feeds| - 1;
    if guid in KeptGuids(feeds[..n]) {
      k := KeptIsWritten(feeds[..n], guid);
    } else {
      k := FeedGuidIsWritten(feeds[n], guid);
      k := |AllWrites(feeds[..n])| + k;
    }
  }

  /** The store once everything has been written. */
  function Written(s: Store, schoolId: string, feeds: seq<Feed>): Store {
    UpsertAll(s, schoolId, AllWrites(feeds))
  }

  predicate IsRssOf(n: News, schoolId: string) {
    n.source == Rss && n.schoolId == schoolId
  }

  /** Which news are still there. */
  lemma {:induction false} ProcessedMembers(s: Store, schoolId: string, feeds: seq<Feed>, n: News)
    requires Valid(s)
    ensures n in Processed(s, schoolId, feeds).news <==>
              n in Written(s, schoolId, feeds).news &&
              (IsRssOf(n, schoolId) ==> n.id in Checked(Written(s, schoolId, feeds).news, schoolId, KeptGuids(feeds)))
  {
    var t := Written(s, schoolId, feeds);
    FilterMembers(Stays(schoolId, Checked(t.news, schoolId, KeptGuids(feeds))), t.news);
    hide Checked, UpsertAll;
  }

  /** Which rss news the check spares: the first match of each kept guid. */
  lemma {:induction false} CheckedMembers(s: Store, schoolId: string, feeds: seq<Feed>, j: nat)
    requires Valid(s) && j < |Written(s, schoolId, feeds).news|
    ensures var t := Written(s, schoolId, feeds);
            t.news[j].id in Checked(t.news, schoolId, KeptGuids(feeds)) <==>
              exists guid :: guid in KeptGuids(feeds) && First(t.news, schoolId, guid) == j
  {
    var t, kept := Written(s, schoolId, feeds), KeptGuids(feeds);
    UpsertAllMirrors(s, schoolId, AllWrites(feeds));
    assert Valid(t);
    hide UpsertAll, AllWrites, KeptGuids, First;
    if t.news[j].id in Checked(t.news, schoolId, kept) {
      var k :| 0 <= k < |kept| && First(t.news, schoolId, kept[k]) < |t.news| && t.news[j].id == t.news[First(t.news, schoolId, kept[k])].id;
      assert First(t.news, schoolId, kept[k]) == j;
    }
    if guid :| guid in kept && First(t.news, schoolId, guid) == j {
      var k :| 0 <= k < |kept| && kept[k] == guid;
      assert t.news[j].id == t.news[First(t.news, schoolId, kept[k])].id;
    }
  }

  /** Every kept guid has its news, with the fields of the last write in feed order. */
  lemma {:induction false} KeptGuidHasNews(s: Store, schoolId: string, feeds: seq<Feed>, guid: string)
    requires Valid(s) && guid in KeptGuids(feeds)
    ensures Last(AllWrites(feeds), guid).Some?
    ensures exists n :: n in Processed(s, schoolId, feeds).news && IsRssOf(n, schoolId) && n.externalId == Some(guid) &&
                        n.fields == Last(AllWrites(feeds), guid).value
  {
    var t, writes := Written(s, schoolId, feeds), AllWrites(feeds);
    var k := KeptIsWritten(feeds, guid);
    WrittenHasLast(writes, k);
    UpsertAllMirrors(s, schoolId, writes);
    assert Located(s, t, schoolId, writes, guid);
    var i := First(t.news, schoolId, guid);
    if i < |s.news| {
      assert t.news[i] == Updated(s, schoolId, writes, i);
    } else {
      assert Inserted(s, t, schoolId, writes, i);
    }
    CheckedMembers(s, schoolId, feeds, i);
    ProcessedMembers(s, schoolId, feeds, t.news[i]);
    hide UpsertAll, AllWrites, KeptGuids, Processed, Checked, Mirrors, Written, Last, First;
    assert t.news[i] in t.news && IsRssOf(t.news[i], schoolId) && t.news[i].externalId == Some(guid);
  }

  /** Every rss news of the school that is left is the first match of a kept guid, its own. */
  lemma {:induction false} LeftNewsAreKept(s: Store, schoolId: string, feeds: seq<Feed>, n: News)
    requires Valid(s) && n in Processed(s, schoolId, feeds).news && IsRssOf(n, schoolId)
    ensures n.externalId.Some? && n.externalId.value in KeptGuids(feeds)
    ensures var t := Written(s, schoolId, feeds).news;
            var i := First(t, schoolId, n.externalId.value);
            i < |t| && n == t[i]
  {
    var t := Written(s, schoolId, feeds).news;
    ProcessedMembers(s, schoolId, feeds, n);
    var j :| 0 <= j < |t| && t[j] == n;
    CheckedMembers(s, schoolId, feeds, j);
    hide Written, KeptGuids, Processed, Checked;
  }

  /**
   After a run the rss news of the school and the guids of the feeds that succeeded correspond one to one,
   and each carries the fields of the last write of its guid.
   */
  lemma {:induction false} NewsMirrorTheFeeds(s: Store, schoolId: string, feeds: seq<Feed>)
    requires Valid(s)
    ensures var news := Processed(s, schoolId, feeds).news;
            && (forall guid :: guid in KeptGuids(feeds) ==>
                  exists n :: n in news && IsRssOf(n, schoolId) && n.externalId == Some(guid) &&
                              Some(n.fields) == Last(AllWrites(feeds), guid))
            && (forall n :: n in news && IsRssOf(n, schoolId) ==>
                  n.externalId.Some? && n.externalId.value in KeptGuids(feeds))
            && (forall n, m :: n in news && m in news && IsRssOf(n, schoolId) && IsRssOf(m, schoolId) && n.externalId == m.externalId ==>
                  n == m)
  {
    hide Processed, KeptGuids, AllWrites, Last, IsRssOf, Written, First, Valid;
    var news := Processed(s, schoolId, feeds).news;
    forall guid | guid in KeptGuids(feeds)
      ensures exists n :: n in news && IsRssOf(n, schoolId) && n.externalId == Some(guid) && Some(n.fields) == Last(AllWrites(feeds), guid)
    {
      KeptGuidHasNews(s, schoolId, feeds, guid);
    }
    forall n | n in news && IsRssOf(n, schoolId)
      ensures n.externalId.Some? && n.externalId.value in KeptGuids(feeds)
      ensures First(Written(s, schoolId, feeds).news, schoolId, n.externalId.value) < |Written(s, schoolId, feeds).news|
      ensures n == Written(s, schoolId, feeds).news[First(Written(s, schoolId, feeds).news, schoolId, n.externalId.value)]
    {
      LeftNewsAreKept(s, schoolId, feeds, n);
    }
  }

  /** News of other schools, and internal news that no write matches, stay exactly as they are. */
  lemma {:induction false} OtherNewsStay(s: Store, schoolId: string, feeds: seq<Feed>, n: News)
    requires Valid(s) && n in s.news
    requires n.schoolId != schoolId || (n.source == Internal && (n.externalId.None? || Last(AllWrites(feeds), n.externalId.value).None?))
    ensures n in Processed(s, schoolId, feeds).news
  {
    var t, writes := Written(s, schoolId, feeds), AllWrites(feeds);
    UpsertAllMirrors(s, schoolId, writes);
    var j :| 0 <= j < |s.news| && s.news[j] == n;
    assert t.news[j] == Updated(s, schoolId, writes, j);
    ProcessedMembers(s, schoolId, feeds, n);
    hide UpsertAll, AllWrites, Processed, Checked;
  }

  lemma NoForeignNewsAppear(s: Store, schoolId: string, feeds: seq<Feed>, n: News)
    requires Valid(s) && n in Processed(s, schoolId, feeds).news && n !in s.news
    ensures n.schoolId == schoolId && n.externalId.Some? && n.source == Rss
  {
    var t, writes := Written(s, schoolId, feeds), AllWrites(feeds);
    UpsertAllMirrors(s, schoolId, writes);
    ProcessedMembers(s, schoolId, feeds, n);
    var j :| 0 <= j < |t.news| && t.news[j] == n;
    if j < |s.news| {
      assert t.news[j] == Updated(s, schoolId, writes, j);
    } else {
      assert Inserted(s, t, schoolId, writes, j);
    }
    hide UpsertAll, AllWrites, Processed, Checked;
  }

  // ---- a run whose school could not be saved ----

  lemma {:induction false} WrittenIsUpToDate(s: Store, schoolId: string, feeds: seq<Feed>, j: nat)
    requires Valid(s) && j < |Written(s, schoolId, feeds).news|
    ensures var t := Written(s, schoolId, feeds); Updated(t, schoolId, AllWrites(feeds), j) == t.news[j]
  {
    var t, writes := Written(s, schoolId, feeds), AllWrites(feeds);
    UpsertAllMirrors(s, schoolId, writes);
    assert j < |s.news| ==> t.news[j] == Updated(s, schoolId, writes, j);
    assert j >= |s.news| ==> Inserted(s, t, schoolId, writes, j);
    if t.news[j].externalId.Some? {
      assert Located(s, t, schoolId, writes, t.news[j].externalId.value);
    }
    hide Written, UpsertAll, AllWrites, Mirrors, Last, First;
  }

  lemma {:induction false} IsFoundAgain(s: Store, schoolId: string, feeds: seq<Feed>, guid: string)
    requires Valid(s) && Last(AllWrites(feeds), guid).Some?
    ensures var t := Written(s, schoolId, feeds);
            First(Written(t, schoolId, feeds).news, schoolId, guid) < |t.news|
  {
    var t, writes := Written(s, schoolId, feeds), AllWrites(feeds);
    UpsertAllMirrors(s, schoolId, writes);
    UpsertAllMirrors(t, schoolId, writes);
    assert Located(s, t, schoolId, writes, guid);
    assert Located(t, Written(t, schoolId, feeds), schoolId, writes, guid);
    hide Written, UpsertAll, AllWrites, Mirrors, Last, First;
  }

  lemma {:induction false} NothingIsInsertedAgain(s: Store, schoolId: string, feeds: seq<Feed>)
    requires Valid(s)
    ensures var t := Written(s, schoolId, feeds); |Written(t, schoolId, feeds).news| == |t.news|
  {
    var t, writes := Written(s, schoolId, feeds), AllWrites(feeds);
    var u := Written(t, schoolId, feeds);
    UpsertAllMirrors(s, schoolId, writes);
    UpsertAllMirrors(t, schoolId, writes);
    if |u.news| > |t.news| {
      assert Inserted(t, u, schoolId, writes, |t.news|);
      IsFoundAgain(s, schoolId, feeds, u.news[|t.news|].externalId.value);
    }
    hide Written, UpsertAll, AllWrites, Mirrors, Last, First;
  }

  /** Nothing is lost when the school cannot be saved: the next run ends as this one would have. */
  lemma {:induction false} NextRunMakesUpForAFailedSave(s: Store, schoolId: string, feeds: seq<Feed>)
    requires Valid(s)
    ensures Processed(Written(s, schoolId, feeds), schoolId, feeds).news == Processed(s, schoolId, feeds).news
  {
    var t, writes := Written(s, schoolId, feeds), AllWrites(feeds);
    var u := Written(t, schoolId, feeds);
    UpsertAllMirrors(s, schoolId, writes);
    UpsertAllMirrors(t, schoolId, writes);
    NothingIsInsertedAgain(s, schoolId, feeds);
    assert Processed(t, schoolId, feeds).news == Filter(Stays(schoolId, Checked(u.news, schoolId, KeptGuids(feeds))), u.news);
    assert Processed(s, schoolId, feeds).news == Filter(Stays(schoolId, Checked(t.news, schoolId, KeptGuids(feeds))), t.news);
    hide Written, UpsertAll, AllWrites, Inserted, Located, Last, First, KeptGuids, Checked, Processed, Filter, Stays;
    forall j | 0 <= j < |t.news| ensures u.news[j] == t.news[j] {
      WrittenIsUpToDate(s, schoolId, feeds, j);
      assert u.news[j] == Updated(t, schoolId, writes, j);
    }
    assert u.news == t.news;
  }

  // ---- a second run ----

  lemma {:induction false} FilterStaysValid(keep: News -> bool, news: seq<News>, nextId: nat)
    requires Valid(Store(news, nextId))
    ensures Valid(Store(Filter(keep, news), nextId))
  {
    if news != [] {
      var rest := news[1..];
      FilterStaysValid(keep, rest, nextId);
      FilterMembers(keep, rest);
      forall n | n in Filter(keep, rest) ensures n.id != news[0].id && n.id < nextId {
        var k :| 0 <= k < |rest| && rest[k] == n;
        assert news[k + 1] == n;
      }
    }
  }

  lemma ProcessedIsValid(s: Store, schoolId: string, feeds: seq<Feed>)
    requires Valid(s)
    ensures Valid(Processed(s, schoolId, feeds))
  {
    UpsertAllMirrors(s, schoolId, AllWrites(feeds));
    var t := Written(s, schoolId, feeds);
    FilterStaysValid(Stays(schoolId, Checked(t.news, schoolId, KeptGuids(feeds))), t.news, t.nextId);
    hide UpsertAll, AllWrites, Checked, KeptGuids;
  }

  lemma {:induction false} FirstBehind(n: News, rest: seq<News>, schoolId: string, guid: string)
    requires !Matches(n, schoolId, guid)
    ensures First([n] + rest, schoolId, guid) == 1 + First(rest, schoolId, guid)
  {
  }

  lemma {:induction false} FirstOfFilter(keep: News -> bool, news: seq<News>, schoolId: string, guid: string)
    requires First(news, schoolId, guid) < |news| && keep(news[First(news, schoolId, guid)])
    ensures var kept := Filter(keep, news);
            First(kept, schoolId, guid) < |kept| && kept[First(kept, schoolId, guid)] == news[First(news, schoolId, guid)]
  {
    var n, rest := news[0], news[1..];
    assert news == [n] + rest;
    if !Matches(n, schoolId, guid) {
      FirstBehind(n, rest, schoolId, guid);
      FirstOfFilter(keep, rest, schoolId, guid);
      if keep(n) {
        FirstBehind(n, Filter(keep, rest), schoolId, guid);
      } else {
        assert Filter(keep, news) == Filter(keep, rest);
      }
      hide First, Filter;
    }
  }

  /** After a run the first match of a kept guid is its rss news, ahead of any internal twin. */
  lemma {:induction false} KeptStandsFirst(s: Store, schoolId: string, feeds: seq<Feed>, guid: string)
    requires Valid(s) && guid in KeptGuids(feeds)
    ensures var news := Processed(s, schoolId, feeds).news;
            var i := First(news, schoolId, guid);
            i < |news| && IsRssOf(news[i], schoolId) && Some(news[i].fields) == Last(AllWrites(feeds), guid)
  {
    var t, writes := Written(s, schoolId, feeds), AllWrites(feeds);
    var k := KeptIsWritten(feeds, guid);
    WrittenHasLast(writes, k);
    UpsertAllMirrors(s, schoolId, writes);
    assert Located(s, t, schoolId, writes, guid);
    var i := First(t.news, schoolId, guid);
    if i < |s.news| {
      assert t.news[i] == Updated(s, schoolId, writes, i);
    } else {
      assert Inserted(s, t, schoolId, writes, i);
    }
    CheckedMembers(s, schoolId, feeds, i);
    FirstOfFilter(Stays(schoolId, Checked(t.news, schoolId, KeptGuids(feeds))), t.news, schoolId, guid);
    hide UpsertAll, AllWrites, KeptGuids, Checked, Mirrors, Last, First;
  }

  /** An internal news item behind the first match of a guid that is written, but whose feeds all fail. */
  ghost predicate IsTwin(s: Store, schoolId: string, feeds: seq<Feed>, j: nat)
    requires j < |s.news|
  {
    var n := s.news[j];
    && n.schoolId == schoolId && n.source == Internal && n.externalId.Some?
    && First(s.news, schoolId, n.externalId.value) != j
    && Last(AllWrites(feeds), n.externalId.value).Some? && n.externalId.value !in KeptGuids(feeds)
  }

  ghost predicate NoTwin(s: Store, schoolId: string, feeds: seq<Feed>) {
    forall j :: 0 <= j < |s.news| ==> !IsTwin(s, schoolId, feeds, j)
  }

  /** What is left for a written guid without being kept has been a twin. */
  lemma {:induction false} LeftUnkeptWasTwin(s: Store, schoolId: string, feeds: seq<Feed>, n: News)
    requires Valid(s) && n in Processed(s, schoolId, feeds).news && n.schoolId == schoolId && n.externalId.Some?
    requires n.externalId.value !in KeptGuids(feeds) && Last(AllWrites(feeds), n.externalId.value).Some?
    ensures !NoTwin(s, schoolId, feeds)
  {
    var t, writes := Written(s, schoolId, feeds), AllWrites(feeds);
    UpsertAllMirrors(s, schoolId, writes);
    ProcessedMembers(s, schoolId, feeds, n);
    var i :| 0 <= i < |t.news| && t.news[i] == n;
    assert i < |s.news| ==> t.news[i] == Updated(s, schoolId, writes, i);
    assert i >= |s.news| ==> Inserted(s, t, schoolId, writes, i);
    hide Processed, Written, Last, AllWrites, KeptGuids, Checked, Mirrors, First;
    if IsRssOf(n, schoolId) {
      LeftNewsAreKept(s, schoolId, feeds, n);
    } else {
      assert IsTwin(s, schoolId, feeds, i);
    }
  }

  lemma {:induction false} LeftNewsAreUpToDate(s: Store, schoolId: string, feeds: seq<Feed>, j: nat)
    requires Valid(s) && NoTwin(s, schoolId, feeds) && j < |Processed(s, schoolId, feeds).news|
    ensures var p := Processed(s, schoolId, feeds); Updated(p, schoolId, AllWrites(feeds), j) == p.news[j]
  {
    hide Processed, Written, Last, AllWrites, KeptGuids, Checked, NoTwin;
    var n := Processed(s, schoolId, feeds).news[j];
    if n.schoolId == schoolId && n.externalId.Some? && Last(AllWrites(feeds), n.externalId.value).Some? {
      if n.externalId.value in KeptGuids(feeds) {
        KeptStandsFirst(s, schoolId, feeds, n.externalId.value);
      } else {
        LeftUnkeptWasTwin(s, schoolId, feeds, n);
      }
    }
  }

  lemma SecondRunChangesNoNews(s: Store, schoolId: string, feeds: seq<Feed>)
    requires Valid(s) && NoTwin(s, schoolId, feeds)
    ensures var p := Processed(s, schoolId, feeds);
            var t := Written(p, schoolId, feeds);
            |p.news| <= |t.news| && t.news[..|p.news|] == p.news
  {
    ProcessedIsValid(s, schoolId, feeds);
    var p, writes := Processed(s, schoolId, feeds), AllWrites(feeds);
    UpsertAllMirrors(p, schoolId, writes);
    var t := Written(p, schoolId, feeds);
    hide Processed, AllWrites, UpsertAll, NoTwin, Updated;
    forall j | 0 <= j < |p.news| ensures t.news[j] == p.news[j] {
      assert t.news[j] == Updated(p, schoolId, writes, j);
      LeftNewsAreUpToDate(s, schoolId, feeds, j);
    }
  }

  lemma {:induction false} LeftNewsStandFirst(s: Store, schoolId: string, feeds: seq<Feed>, j: nat)
    requires Valid(s)
    requires j < |Processed(s, schoolId, feeds).news| && IsRssOf(Processed(s, schoolId, feeds).news[j], schoolId)
    ensures var news := Processed(s, schoolId, feeds).news;
            news[j].externalId.Some? && First(news, schoolId, news[j].externalId.value) == j
  {
    var news := Processed(s, schoolId, feeds).news;
    LeftNewsAreKept(s, schoolId, feeds, news[j]);
    var guid := news[j].externalId.value;
    KeptStandsFirst(s, schoolId, feeds, guid);
    NewsMirrorTheFeeds(s, schoolId, feeds);
    ProcessedIsValid(s, schoolId, feeds);
    hide Processed, Written, KeptGuids, Last;
    var i := First(news, schoolId, guid);
    assert news[i] in news && news[j] in news && news[i] == news[j];
  }

  /** The second run spares exactly what the first one has left. */
  lemma {:induction false} SecondRunSpares(s: Store, schoolId: string, feeds: seq<Feed>, j: nat)
    requires Valid(s) && NoTwin(s, schoolId, feeds)
    requires j < |Written(Processed(s, schoolId, feeds), schoolId, feeds).news|
    ensures var p := Processed(s, schoolId, feeds);
            var t := Written(p, schoolId, feeds);
            Stays(schoolId, Checked(t.news, schoolId, KeptGuids(feeds)))(t.news[j]) <==> j < |p.news|
  {
    var p, writes := Processed(s, schoolId, feeds), AllWrites(feeds);
    var t := Written(p, schoolId, feeds);
    ProcessedIsValid(s, schoolId, feeds);
    UpsertAllMirrors(p, schoolId, writes);
    CheckedMembers(p, schoolId, feeds, j);
    if j < |p.news| {
      SecondRunChangesNoNews(s, schoolId, feeds);
      assert t.news[j] == p.news[j];
      if IsRssOf(p.news[j], schoolId) {
        assert p.news[j] in p.news;
        LeftNewsAreKept(s, schoolId, feeds, p.news[j]);
        LeftNewsStandFirst(s, schoolId, feeds, j);
        assert Located(p, t, schoolId, writes, p.news[j].externalId.value);
      }
    } else {
      assert Inserted(p, t, schoolId, writes, j);
      forall guid | guid in KeptGuids(feeds) ensures First(t.news, schoolId, guid) != j {
        KeptGuidHasNews(s, schoolId, feeds, guid);
        var n :| n in p.news && IsRssOf(n, schoolId) && n.externalId == Some(guid);
        assert Located(p, t, schoolId, writes, guid);
      }
    }
    hide Processed, AllWrites, UpsertAll, KeptGuids, Checked;
  }

  lemma {:induction false} FilterPrefix<T>(keep: T -> bool, s: seq<T>, n: nat)
    requires n <= |s| && forall j :: 0 <= j < |s| ==> (keep(s[j]) <==> j < n)
    ensures Filter(keep, s) == s[..n]
  {
    var a, b := s[..n], s[n..];
    assert s == a + b;
    FilterAppend(keep, a, b);
    FilterAll(keep, a);
    FilterNone(keep, b);
  }

  lemma SecondRunIsIdle(s: Store, schoolId: string, feeds: seq<Feed>)
    requires Valid(s) && NoTwin(s, schoolId, feeds)
    ensures var p := Processed(s, schoolId, feeds);
            Processed(p, schoolId, feeds).news == p.news
  {
    var p := Processed(s, schoolId, feeds);
    var t := Written(p, schoolId, feeds);
    SecondRunChangesNoNews(s, schoolId, feeds);
    var stays := Stays(schoolId, Checked(t.news, schoolId, KeptGuids(feeds)));
    assert Processed(p, schoolId, feeds).news == Filter(stays, t.news);
    hide UpsertAll, AllWrites, KeptGuids, Checked, Processed, Written, Stays, NoTwin;
    forall j | 0 <= j < |t.news| ensures stays(t.news[j]) <==> j < |p.news| {
      SecondRunSpares(s, schoolId, feeds, j);
    }
    FilterPrefix(stays, t.news, |p.news|);
  }

  /** A twin is left by the first run, as the news of its guid. */
  lemma TwinIsLeft(s: Store, schoolId: string, feeds: seq<Feed>, j: nat) returns (i: nat)
    requires Valid(s) && j < |s.news| && IsTwin(s, schoolId, feeds, j)
    ensures var news, guid := Processed(s, schoolId, feeds).news, s.news[j].externalId.value;
            i == First(news, schoolId, guid) < |news| && news[i].source == Internal
  {
    var p, t, writes := Processed(s, schoolId, feeds), Written(s, schoolId, feeds), AllWrites(feeds);
    var n := s.news[j];
    UpsertAllMirrors(s, schoolId, writes);
    assert t.news[j] == Updated(s, schoolId, writes, j) == n;
    ProcessedMembers(s, schoolId, feeds, n);
    var k :| 0 <= k < |p.news| && p.news[k] == n;
    i := First(p.news, schoolId, n.externalId.value);
    if IsRssOf(p.news[i], schoolId) {
      LeftNewsAreKept(s, schoolId, feeds, p.news[i]);
    }
    hide Processed, Written, Last, AllWrites, KeptGuids, Checked;
  }

  /** The second run turns it into rss news, so it is not what it was. */
  lemma {:induction false} TwinIsTaken(p: Store, schoolId: string, feeds: seq<Feed>, i: nat)
    requires Valid(p) && i < |p.news| && p.news[i].schoolId == schoolId && p.news[i].externalId.Some? && p.news[i].source == Internal
    requires First(p.news, schoolId, p.news[i].externalId.value) == i && Last(AllWrites(feeds), p.news[i].externalId.value).Some?
    ensures p.news[i] !in Processed(p, schoolId, feeds).news
  {
    var t, writes := Written(p, schoolId, feeds), AllWrites(feeds);
    UpsertAllMirrors(p, schoolId, writes);
    assert t.news[i] == Updated(p, schoolId, writes, i);
    assert t.news[i].id == p.news[i].id && t.news[i].source == Rss;
    ProcessedMembers(p, schoolId, feeds, p.news[i]);
    hide Processed, Written, Last, AllWrites, KeptGuids, Checked, First;
  }

  /**
   A second run with the same feeds changes no news at all, exactly when no internal news item stands behind
   the first match of a guid that is written by failing feeds only.
   */
  lemma SecondRunIsIdleIffNoTwin(s: Store, schoolId: string, feeds: seq<Feed>)
    requires Valid(s)
    ensures var p := Processed(s, schoolId, feeds);
            Processed(p, schoolId, feeds).news == p.news <==> NoTwin(s, schoolId, feeds)
  {
    var p := Processed(s, schoolId, feeds);
    hide Processed, Written, AllWrites, KeptGuids;
    if NoTwin(s, schoolId, feeds) {
      SecondRunIsIdle(s, schoolId, feeds);
    } else {
      var j :| 0 <= j < |s.news| && IsTwin(s, schoolId, feeds, j);
      var i := TwinIsLeft(s, schoolId, feeds, j);
      ProcessedIsValid(s, schoolId, feeds);
      TwinIsTaken(p, schoolId, feeds, i);
      assert p.news[i] in p.news;
    }
  }

  /** The only feed fails after its first item. */
  lemma {:induction false} OneWriteOnly(feed: Feed)
    requires |feed.items| > 1 && feed.written == 1
    ensures AllWrites([feed]) == [Write(feed.items[0].guid, FieldsOf(feed, feed.items[0]))] && KeptGuids([feed]) == []
  {
    assert [feed][..0] == [] && feed.items[..1] == [feed.items[0]];
    assert AllWrites([feed]) == AllWrites([]) + WritesOf(feed);
  }

  lemma {:induction false} WriteToTheFirst(s: Store, schoolId: string, w: Write)
    requires s.news != [] && Matches(s.news[0], schoolId, w.guid)
    ensures UpsertAll(s, schoolId, [w]) == Upsert(s, schoolId, w.guid, w.fields)
    ensures First(s.news, schoolId, w.guid) == 0
  {
    assert [w][..0] == [];
    FirstIs(s.news, schoolId, w.guid, 0);
  }

  /** An example of a twin that is taken: it stands behind the rss news of a feed that fails after its first item. */
  lemma {:induction false} SecondRunCanTakeAnInternalTwin(feed: Feed, twin: News)
    requires |feed.items| > 1 && feed.written == 1
    requires twin.source == Internal && twin.id == 1 && twin.externalId == Some(feed.items[0].guid)
    ensures var rss := News(0, twin.schoolId, twin.externalId, Rss, FieldsOf(feed, feed.items[0]));
            var once := Processed(Store([rss, twin], 2), twin.schoolId, [feed]);
            once.news == [twin] && Processed(once, twin.schoolId, [feed]).news == []
  {
    var id, w := twin.schoolId, Write(feed.items[0].guid, FieldsOf(feed, feed.items[0]));
    var rss, taken := News(0, id, Some(w.guid), Rss, w.fields), twin.(source := Rss, fields := w.fields);
    var s, once := Store([rss, twin], 2), Store([twin], 2);
    OneWriteOnly(feed);
    WriteToTheFirst(s, id, w);
    WriteToTheFirst(once, id, w);
    assert Upsert(s, id, w.guid, w.fields) == s && Upsert(once, id, w.guid, w.fields) == Store([taken], 2);
    hide Upsert, UpsertAll, AllWrites, KeptGuids, First;
    assert [rss, twin][1..] == [twin] && [twin][1..] == [];
    assert Filter(Stays(id, Checked(s.news, id, [])), s.news) == [twin];
    assert Filter(Stays(id, Checked([taken], id, [])), [taken]) == [];
  }
}
