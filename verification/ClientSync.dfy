/** What the client does when its connection comes up: subscribe from its cursor, merge, catch up. */
module ClientSync {
  import opened Collections
  import opened Messages
  import opened Timeline
  import opened History
  import opened Gateway
  import B = TimelineBound
  import Snapshots = SubscriptionRuns

  /** A tidy timeline within the bound, consistent with everything the server has. */
  ghost predicate InStep(t: Timeline, server: nat -> Option<seq<Message>>) {
    Fits(t, t.lastSequence, server)
  }

  /**
   * After a successful subscription whose history was read from `db`, and a catch-up that ends
   * connected, the client has received exactly the messages above its cursor as of its last read:
   * the snapshot and the pages meet without a gap and without an overlap. Although the list is
   * bounded after the snapshot and after every page, it ends as if all of them had come at once.
   */
  method Resume(db: seq<Message>, server: nat -> Option<seq<Message>>, subscribed: SubscribeResult, timeline: Timeline)
    returns (r: Timeline, connected: bool, pages: nat, ghost received: seq<Message>)
    requires Ascending(db) && Answers(server) && forall i :: server(i).Some? ==> db <= server(i).value
    requires subscribed.joined ==>
      && subscribed.history == Snapshots.ReadHistory(db, timeline.lastSequence)
      && subscribed.nextAfter == LastSequence(subscribed.history, timeline.lastSequence)
    ensures !subscribed.joined ==> r == timeline && !connected
    ensures connected ==>
      && 0 < pages <= MAXIMUM_PAGES && server(pages - 1).Some?
      && received == Above(server(pages - 1).value, timeline.lastSequence)
      && (InStep(timeline, server) ==> r == B.Update(timeline, received))
    ensures subscribed.joined ==>
      r.lastSequence == Highest(timeline.lastSequence, received) && |r.items| <= MAXIMUM_RENDERED_ITEMS
    ensures subscribed.joined && !connected ==> pages == MAXIMUM_PAGES || server(pages).None?
  {
    hide Merge, Above, Answers, MergedAfter, MoreAfter, BoundedTimeline, InStep, Fits, Snapshots.ReadHistory, Tidy;
    if !subscribed.joined { return timeline, false, 0, []; }
    UpdateKeeps(timeline, subscribed.history);
    r := MergeStoredMessages(timeline, subscribed.history);
    r := BoundedTimeline(r);
    ghost var merged;
    if InStep(timeline, server) { SnapshotFits(db, server, timeline); }
    r, connected, pages, merged := CatchUp(server, subscribed.nextAfter, r);
    received := subscribed.history + merged;
    HighestOfBoth(timeline.lastSequence, subscribed.history, merged);
    if connected {
      LaterIsAscending(server, pages - 1);
      SnapshotMeetsPages(db, server(pages - 1).value, timeline.lastSequence);
      if InStep(timeline, server) { PagesJoin(db, server, pages - 1, timeline, merged); }
    }
  }

  lemma LaterIsAscending(server: nat -> Option<seq<Message>>, i: nat)
    requires Answers(server) && server(i).Some?
    ensures Ascending(server(i).value)
  {
  }

  lemma SnapshotMeetsPages(db: seq<Message>, later: seq<Message>, after: nat)
    requires Ascending(later) && db <= later
    ensures
      var history := Snapshots.ReadHistory(db, after);
      Above(later, after) == history + Above(later, LastSequence(history, after))
  {
    hide Above;
    AboveGrows(db, later, after);
    AboveSplits(later, after, Snapshots.ReadHistory(db, after));
  }

  lemma HistoryIsBehind(db: seq<Message>, after: nat)
    requires Ascending(db)
    ensures
      var history := Snapshots.ReadHistory(db, after);
      && after <= LastSequence(history, after)
      && forall m :: m in history ==> m in db && m.sequence <= LastSequence(history, after)
  {
    var k := AboveIsSuffix(db, after);
    hide Above;
    var history := Snapshots.ReadHistory(db, after);
    InSuffix(db, k, history);
    forall i | 0 <= i < |history| ensures history[i] == db[k + i] {
      assert history[i] == db[k..][i];
    }
  }

  lemma HistoryCursor(db: seq<Message>, last: nat)
    requires Ascending(db)
    ensures
      var history := Snapshots.ReadHistory(db, last);
      Highest(last, history) <= LastSequence(history, last)
  {
    HistoryIsBehind(db, last);
    HighestIsLeast(last, Snapshots.ReadHistory(db, last));
  }

  /** What an update lists was there before or came with the batch. */
  lemma UpdatedItems(t: Timeline, messages: seq<Message>)
    requires Tidy(t) && B.Consistent(t.items, messages)
    ensures forall x :: x in B.Update(t, messages).items ==> x in t.items || (x.Stored? && x.message in messages)
  {
    B.ConsistentAgrees(t.items, messages);
    B.MergeElements(t, messages);
    B.BroughtAreMessages(messages);
    MergeIsTidy(t, messages);
    B.KeptIsLast(Merge(t, messages));
    hide Merge, BoundedTimeline, Tidy, B.Consistent, B.AgreesWith, B.Brought;
    forall x | x in B.Update(t, messages).items ensures x in t.items || (x.Stored? && x.message in messages) {
      assert x in B.Kept(Merge(t, messages));
      assert x in B.Elements(Merge(t, messages).items);
    }
  }

  lemma StaysConsistent(t: Timeline, history: seq<Message>, later: seq<Message>)
    requires Tidy(t) && B.Consistent(t.items, later) && forall m :: m in history ==> m in later
    ensures B.Consistent(B.Update(t, history).items, later)
  {
    SomeAreConsistent(t.items, later, history);
    UpdatedItems(t, history);
    hide B.Update, Tidy;
  }

  /** The snapshot, merged and bounded, leaves a timeline that the pages fit. */
  lemma SnapshotFits(db: seq<Message>, server: nat -> Option<seq<Message>>, t: Timeline)
    requires Ascending(db) && (forall i :: server(i).Some? ==> db <= server(i).value) && InStep(t, server)
    ensures
      var history := Snapshots.ReadHistory(db, t.lastSequence);
      Fits(B.Update(t, history), LastSequence(history, t.lastSequence), server)
  {
    hide B.Update, Tidy, Snapshots.ReadHistory, Highest, B.Consistent;
    var history := Snapshots.ReadHistory(db, t.lastSequence);
    UpdateKeeps(t, history);
    HistoryCursor(db, t.lastSequence);
    HistoryIsBehind(db, t.lastSequence);
    forall i | server(i).Some? ensures B.Consistent(B.Update(t, history).items, server(i).value) {
      forall m | m in history ensures m in server(i).value { InPrefix(db, server(i).value, m); }
      StaysConsistent(t, history, server(i).value);
    }
  }

  lemma InPrefix(db: seq<Message>, later: seq<Message>, m: Message)
    requires db <= later && m in db
    ensures m in later
  {
    var i :| 0 <= i < |db| && db[i] == m;
    assert later[i] == m;
  }

  /** Merging snapshot and pages in turn is merging all at once. */
  lemma PagesJoin(db: seq<Message>, server: nat -> Option<seq<Message>>, n: nat, t: Timeline, merged: seq<Message>)
    requires Ascending(db) && server(n).Some? && Ascending(server(n).value) && db <= server(n).value
      && InStep(t, server)
    requires merged == Above(server(n).value, LastSequence(Snapshots.ReadHistory(db, t.lastSequence), t.lastSequence))
    ensures
      var history := Snapshots.ReadHistory(db, t.lastSequence);
      B.Update(B.Update(t, history), merged) == B.Update(t, history + merged)
  {
    hide B.Update, Tidy, Snapshots.ReadHistory, Highest, B.Consistent, Above;
    var history, later := Snapshots.ReadHistory(db, t.lastSequence), server(n).value;
    var cursor := LastSequence(history, t.lastSequence);
    HistoryCursor(db, t.lastSequence);
    HistoryIsBehind(db, t.lastSequence);
    var k := AboveIsSuffix(later, cursor);
    InSuffix(later, k, merged);
    forall m | m in history + merged ensures m in later {
      if m in history { InPrefix(db, later, m); }
    }
    SomeAreConsistent(t.items, later, history + merged);
    forall m | m in merged ensures m.sequence > Highest(t.lastSequence, history) {
    }
    B.PagesAreExact(t, history, merged);
  }
}
