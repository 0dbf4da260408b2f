/**
 What a run of the rss job leaves in the news, said of the feeds and their items alone.
 */
module RssOutcome {
  import opened Wrappers
  import opened Sequences
  import opened RssNews

  /** Item `k` of feed `i` has this guid, and is reached before an error stops the feed. */
  predicate IsReached(feeds: seq<Feed>, i: nat, k: nat, guid: string) {
    i < |feeds| && k < |feeds[i].items| && k < feeds[i].written && feeds[i].items[k].guid == guid
  }

  /** Feeds are handled in order, and so are their items. */
  predicate IsLater(i: nat, k: nat, j: nat, l: nat) {
    i < j || (i == j && k < l)
  }

  /** The last item with this guid over all feeds, also those that fail. */
  ghost predicate IsLastItem(feeds: seq<Feed>, i: nat, k: nat, guid: string) {
    IsReached(feeds, i, k, guid) && forall j: nat, l: nat :: IsReached(feeds, j, l, guid) ==> !IsLater(i, k, j, l)
  }

  /** A feed that does not fail has an item with this guid. */
  predicate IsDelivered(feeds: seq<Feed>, i: nat, k: nat, guid: string) {
    i < |feeds| && |feeds[i].items| <= feeds[i].written && k < |feeds[i].items| && feeds[i].items[k].guid == guid
  }

  ghost predicate IsKept(feeds: seq<Feed>, guid: string) {
    exists i: nat, k: nat :: IsDelivered(feeds, i, k, guid)
  }

  /** The news show the item as its feed presents it. */
  predicate Shows(n: News, f: Feed, item: Item) {
    && n.fields.title == item.title && n.fields.content == item.content
    && n.fields.description == f.description && n.fields.date == item.date
  }

  // ---- the last write of a guid ----

  lemma {:induction false} LastAppend(a: seq<Write>, b: seq<Write>, guid: string)
    ensures Last(a + b, guid) == if Last(b, guid).Some? then Last(b, guid) else Last(a, guid)
    decreases |b|
  {
    if b == [] {
      assert a + b == a;
    } else {
      var last := |b| - 1;
      assert (a + b)[..|a + b| - 1] == a + b[..last];
      LastAppend(a, b[..last], guid);
    }
  }

  lemma {:induction false} LastAt(writes: seq<Write>, k: nat, guid: string)
    requires k < |writes| && writes[k].guid == guid && forall l :: k < l < |writes| ==> writes[l].guid != guid
    ensures Last(writes, guid) == Some(writes[k].fields)
    decreases |writes|
  {
    if k < |writes| - 1 {
      LastAt(writes[..|writes| - 1], k, guid);
    }
  }

  lemma {:induction false} LastNowhere(writes: seq<Write>, guid: string)
    requires forall l :: 0 <= l < |writes| ==> writes[l].guid != guid
    ensures Last(writes, guid) == None
    decreases |writes|
  {
    if writes != [] {
      LastNowhere(writes[..|writes| - 1], guid);
    }
  }

  lemma WritesAre(f: Feed)
    ensures var n := if f.written < |f.items| then f.written else |f.items|;
            && |WritesOf(f)| == n
            && forall k :: 0 <= k < n ==>
                 WritesOf(f)[k] == Write(f.items[k].guid, Fields(f.items[k].title, f.items[k].content, f.description, f.items[k].date))
  {
  }

  /** The last write of a list. */
  lemma {:induction false} LastPlace(writes: seq<Write>, guid: string) returns (k: nat)
    requires Last(writes, guid).Some?
    ensures k < |writes| && writes[k].guid == guid && Last(writes, guid) == Some(writes[k].fields)
    ensures forall l :: k < l < |writes| ==> writes[l].guid != guid
    decreases |writes|
  {
    k := |writes| - 1;
    if writes[k].guid != guid {
      k := LastPlace(writes[..k], guid);
    }
  }

  lemma BecomesLast(before: seq<Feed>, f: Feed, guid: string, k: nat)
    requires k < |f.items| && k < f.written && f.items[k].guid == guid
    requires forall l :: k < l < |f.items| && l < f.written ==> f.items[l].guid != guid
    ensures IsLastItem(before + [f], |before|, k, guid)
  {
  }

  lemma StaysLast(before: seq<Feed>, f: Feed, guid: string, i: nat, k: nat)
    requires IsLastItem(before, i, k, guid) && forall l :: 0 <= l < |f.items| && l < f.written ==> f.items[l].guid != guid
    ensures IsLastItem(before + [f], i, k, guid)
  {
    forall j: nat, l: nat | IsReached(before + [f], j, l, guid) ensures !IsLater(i, k, j, l) {
      assert j < |before| && IsReached(before, j, l, guid);
    }
  }

  /** The fields a guid ends with are those of its last item. */
  lemma {:induction false} LastWriteIsOfAnItem(feeds: seq<Feed>, guid: string) returns (i: nat, k: nat)
    requires Last(AllWrites(feeds), guid).Some?
    ensures IsLastItem(feeds, i, k, guid)
    ensures var item := feeds[i].items[k];
            Last(AllWrites(feeds), guid) == Some(Fields(item.title, item.content, feeds[i].description, item.date))
    decreases |feeds|
  {
    var n := |feeds| - 1;
    var before, f := feeds[..n], feeds[n];
    LastAppend(AllWrites(before), WritesOf(f), guid);
    WritesAre(f);
    if Last(WritesOf(f), guid).Some? {
      k := LastPlace(WritesOf(f), guid);
      i := n;
      hide Last, AllWrites, WritesOf;
      BecomesLast(before, f, guid, k);
      assert before + [f] == feeds;
    } else {
      i, k := LastWriteIsOfAnItem(before, guid);
      NotWritten(f, guid);
      hide Last, AllWrites, WritesOf;
      StaysLast(before, f, guid, i, k);
      assert before + [f] == feeds;
    }
  }

  lemma {:induction false} NotWritten(f: Feed, guid: string)
    requires Last(WritesOf(f), guid).None?
    ensures forall k :: 0 <= k < |f.items| && k < f.written ==> f.items[k].guid != guid
  {
    WritesAre(f);
    forall k | 0 <= k < |f.items| && k < f.written ensures f.items[k].guid != guid {
      WrittenHasLast(WritesOf(f), k);
    }
  }

  /** An item that is reached is written. */
  lemma {:induction false} ReachedIsWritten(feeds: seq<Feed>, guid: string, i: nat, k: nat)
    requires IsReached(feeds, i, k, guid)
    ensures Last(AllWrites(feeds), guid).Some?
    decreases |feeds|
  {
    var n := |feeds| - 1;
    LastAppend(AllWrites(feeds[..n]), WritesOf(feeds[n]), guid);
    if i == n {
      WritesAre(feeds[n]);
      WrittenHasLast(WritesOf(feeds[n]), k);
    } else {
      ReachedIsWritten(feeds[..n], guid, i, k);
    }
  }

  lemma {:induction false} UnreachedIsNotWritten(feeds: seq<Feed>, guid: string)
    requires forall i: nat, k: nat :: !IsReached(feeds, i, k, guid)
    ensures Last(AllWrites(feeds), guid).None?
  {
    if Last(AllWrites(feeds), guid).Some? {
      var i, k := LastWriteIsOfAnItem(feeds, guid);
    }
  }

  /** There is only one last item. */
  lemma OneLastItem(feeds: seq<Feed>, guid: string, i: nat, k: nat, j: nat, l: nat)
    requires IsLastItem(feeds, i, k, guid) && IsLastItem(feeds, j, l, guid)
    ensures i == j && k == l
  {
    assert !IsLater(i, k, j, l) && !IsLater(j, l, i, k);
  }

  lemma {:induction false} KeptIff(feeds: seq<Feed>, guid: string)
    ensures guid in KeptGuids(feeds) <==> IsKept(feeds, guid)
    decreases |feeds|
  {
    if feeds != [] {
      var n := |feeds| - 1;
      var before, f := feeds[..n], feeds[n];
      KeptIff(before, guid);
      ImageMembers(Guid, f.items, Map(Guid, f.items));
      assert forall i: nat, k: nat :: i < n ==> (IsDelivered(feeds, i, k, guid) <==> IsDelivered(before, i, k, guid));
      assert (exists k: nat :: IsDelivered(feeds, n, k, guid)) <==> Succeeds(f) && guid in Map(Guid, f.items) by {
        if Succeeds(f) && guid in Map(Guid, f.items) {
          var item :| item in f.items && guid == Guid(item);
          var k: nat :| k < |f.items| && f.items[k] == item;
          assert IsDelivered(feeds, n, k, guid);
        }
      }
    }
  }

  // ---- what the news show ----

  lemma KeptHasLastItem(feeds: seq<Feed>, guid: string) returns (i: nat, k: nat)
    requires IsKept(feeds, guid)
    ensures IsLastItem(feeds, i, k, guid)
    ensures var item := feeds[i].items[k];
            Last(AllWrites(feeds), guid) == Some(Fields(item.title, item.content, feeds[i].description, item.date))
  {
    var j: nat, l: nat :| IsDelivered(feeds, j, l, guid);
    ReachedIsWritten(feeds, guid, j, l);
    hide Last, AllWrites;
    i, k := LastWriteIsOfAnItem(feeds, guid);
  }

  /**
   After a run every guid that a feed has delivered has its news, every rss news item of the school is of such a guid, and
   each shows the last item with its guid over all feeds.
   */
  lemma NewsShowTheLastItems(s: Store, schoolId: string, feeds: seq<Feed>)
    requires Valid(s)
    ensures var news := Processed(s, schoolId, feeds).news;
            && (forall guid :: IsKept(feeds, guid) ==>
                  exists n :: n in news && n.source == Rss && n.schoolId == schoolId && n.externalId == Some(guid))
            && forall n :: n in news && n.source == Rss && n.schoolId == schoolId ==>
                 && n.externalId.Some? && IsKept(feeds, n.externalId.value)
                 && exists i: nat, k: nat :: IsLastItem(feeds, i, k, n.externalId.value) && Shows(n, feeds[i], feeds[i].items[k])
  {
    NewsMirrorTheFeeds(s, schoolId, feeds);
    var news := Processed(s, schoolId, feeds).news;
    forall guid ensures guid in KeptGuids(feeds) <==> IsKept(feeds, guid) {
      KeptIff(feeds, guid);
    }
    hide Processed, KeptGuids, AllWrites, Last, IsKept, IsLastItem;
    forall n | n in news && n.source == Rss && n.schoolId == schoolId
      ensures n.externalId.Some? && IsKept(feeds, n.externalId.value)
      ensures exists i: nat, k: nat :: IsLastItem(feeds, i, k, n.externalId.value) && Shows(n, feeds[i], feeds[i].items[k])
    {
      var guid := n.externalId.value;
      var m :| m in news && IsRssOf(m, schoolId) && m.externalId == Some(guid) && Some(m.fields) == Last(AllWrites(feeds), guid);
      assert IsRssOf(n, schoolId) && m == n;
      var i, k := KeptHasLastItem(feeds, guid);
      assert IsReached(feeds, i, k, guid);
      assert Shows(n, feeds[i], feeds[i].items[k]);
    }
  }

  /** When the school cannot be saved, the same is written for every guid that is reached, and no news are lost. */
  lemma UnsavedRunShowsTheLastItems(s: Store, schoolId: string, feeds: seq<Feed>)
    requires Valid(s)
    ensures var news := Written(s, schoolId, feeds).news;
            && |s.news| <= |news| && (forall j :: 0 <= j < |s.news| ==> news[j].id == s.news[j].id)
            && forall guid, i: nat, k: nat :: IsLastItem(feeds, i, k, guid) ==>
                 exists n :: n in news && n.source == Rss && n.schoolId == schoolId && n.externalId == Some(guid) &&
                             Shows(n, feeds[i], feeds[i].items[k])
  {
    var t, writes := Written(s, schoolId, feeds), AllWrites(feeds);
    UpsertAllMirrors(s, schoolId, writes);
    forall j | 0 <= j < |s.news| ensures t.news[j].id == s.news[j].id {
      assert t.news[j] == Updated(s, schoolId, writes, j);
    }
    forall guid, i: nat, k: nat | IsLastItem(feeds, i, k, guid)
      ensures exists n :: n in t.news && n.source == Rss && n.schoolId == schoolId && n.externalId == Some(guid) &&
                          Shows(n, feeds[i], feeds[i].items[k])
    {
      WrittenShows(s, schoolId, feeds, guid, i, k);
    }
  }

  lemma WrittenShows(s: Store, schoolId: string, feeds: seq<Feed>, guid: string, i: nat, k: nat)
    requires Valid(s) && IsLastItem(feeds, i, k, guid)
    ensures exists n :: n in Written(s, schoolId, feeds).news && n.source == Rss && n.schoolId == schoolId && n.externalId == Some(guid) &&
                        Shows(n, feeds[i], feeds[i].items[k])
  {
    var t, writes := Written(s, schoolId, feeds), AllWrites(feeds);
    ReachedIsWritten(feeds, guid, i, k);
    var j, l := LastWriteIsOfAnItem(feeds, guid);
    OneLastItem(feeds, guid, i, k, j, l);
    UpsertAllMirrors(s, schoolId, writes);
    assert Located(s, t, schoolId, writes, guid);
    var at := First(t.news, schoolId, guid);
    if at < |s.news| {
      assert t.news[at] == Updated(s, schoolId, writes, at);
    } else {
      assert Inserted(s, t, schoolId, writes, at);
    }
    hide Written, UpsertAll, AllWrites, Last, First, Mirrors, IsLastItem;
    assert t.news[at] in t.news && Shows(t.news[at], feeds[i], feeds[i].items[k]);
  }

  /** News that no feed has reached by their guid stay if they are no rss news of the school, and so do those of other schools. */
  lemma UnreachedNewsStay(s: Store, schoolId: string, feeds: seq<Feed>, n: News)
    requires Valid(s) && n in s.news
    requires n.schoolId != schoolId ||
             (n.source == Internal && (n.externalId.None? || forall i: nat, k: nat :: !IsReached(feeds, i, k, n.externalId.value)))
    ensures n in Processed(s, schoolId, feeds).news
  {
    if n.schoolId == schoolId && n.externalId.Some? {
      UnreachedIsNotWritten(feeds, n.externalId.value);
    }
    hide Last, AllWrites, Processed;
    OtherNewsStay(s, schoolId, feeds, n);
  }

  /** The feeds that an error stops before their end. */
  function Stopped(feeds: seq<Feed>): set<nat> {
    set i: nat | i < |feeds| && feeds[i].written < |feeds[i].items|
  }

  /** As many feeds are reported as were stopped by an error. */
  lemma {:induction false} FailuresAreTheStopped(feeds: seq<Feed>)
    ensures Failures(feeds) == |Stopped(feeds)|
    decreases |feeds|
  {
    if feeds != [] {
      var n := |feeds| - 1;
      FailuresAreTheStopped(feeds[..n]);
      assert Stopped(feeds) == if feeds[n].written < |feeds[n].items| then Stopped(feeds[..n]) + {n} else Stopped(feeds[..n]);
    }
  }
}
