/** What bounding the rendered list between two merges changes, and when it changes nothing. */
module TimelineBound {
  import opened Collections
  import opened Messages
  import opened Timeline

  /** Every update of the panel's timeline is bounded. */
  ghost function Update(t: Timeline, messages: seq<Message>): Timeline {
    BoundedTimeline(Merge(t, messages))
  }

  function LastItems(items: seq<Item>, n: nat): seq<Item> {
    if |items| <= n then items else items[|items| - n..]
  }

  function Elements(items: seq<Item>): set<Item> {
    set x | x in items
  }

  ghost predicate AllBefore(items: set<Item>, y: Item) {
    forall x :: x in items ==> Before(x, y)
  }

  /** The items that come after all of some others. */
  ghost function After(items: set<Item>, others: set<Item>): set<Item> {
    set y | y in items && AllBefore(others, y)
  }

  // ---- The ends of two sorted lists ----

  lemma LastItemsStep(items: seq<Item>, n: nat)
    requires items != [] && n > 0
    ensures LastItems(items, n) == LastItems(items[..|items| - 1], n - 1) + [items[|items| - 1]]
  {
  }

  lemma LastIsGreatest(items: seq<Item>, x: Item)
    requires Sorted(items) && x in items
    ensures x == items[|items| - 1] || (x in items[..|items| - 1] && Before(x, items[|items| - 1]))
  {
  }

  lemma BeforeIsStrict(x: Item, y: Item)
    ensures !(Before(x, y) && Before(y, x)) && !Before(x, x)
  {
  }

  ghost predicate EndsAgree(u: seq<Item>, v: seq<Item>, n: nat) {
    var out := Elements(u) - Elements(v);
    LastItems(u, n) == LastItems(v, n) <==> out == {} || |After(Elements(v), out)| >= n
  }

  /**
   * Leaving items out of a sorted list keeps its last `n` exactly when at least `n` of the others
   * come after everything left out.
   */
  lemma {:induction false} SameEnds(u: seq<Item>, v: seq<Item>, n: nat)
    requires Sorted(u) && Sorted(v) && Elements(v) <= Elements(u)
    ensures EndsAgree(u, v, n)
    decreases |u|
  {
    hide Before, EndsAgree, Sorted, Elements, LastItems;
    if Elements(u) == Elements(v) || n == 0 {
      NothingLeftOut(u, v, n);
    } else {
      NotEmpty(u, v);
      if u[|u| - 1] in v {
        CutEnds(u, v);
        SameEnds(u[..|u| - 1], v[..|v| - 1], n - 1);
        EndStep(u, v, n);
      } else {
        EndLeftOut(u, v, n);
      }
    }
  }

  lemma NotEmpty(u: seq<Item>, v: seq<Item>)
    requires Elements(v) <= Elements(u)
    ensures Elements(u) == Elements(v) || u != []
  {
    if u == [] { assert Elements(u) == {}; }
  }

  lemma NothingLeftOut(u: seq<Item>, v: seq<Item>, n: nat)
    requires Sorted(u) && Sorted(v) && Elements(v) <= Elements(u) && (Elements(u) == Elements(v) || n == 0)
    ensures EndsAgree(u, v, n)
  {
    if Elements(u) == Elements(v) {
      assert forall x :: x in u <==> x in Elements(u);
      assert forall x :: x in v <==> x in Elements(v);
      OrderIsUnique(u, v);
    }
  }

  lemma EndLeftOut(u: seq<Item>, v: seq<Item>, n: nat)
    requires Sorted(u) && u != [] && Elements(v) <= Elements(u) && u[|u| - 1] !in v && n > 0
    ensures EndsAgree(u, v, n)
  {
    hide Before, Sorted;
    LastItemsStep(u, n);
    assert u[|u| - 1] in LastItems(u, n);
    assert forall x :: x in LastItems(v, n) ==> x in v;
    assert u[|u| - 1] in Elements(u) - Elements(v);
    NothingAfterLast(u, v);
  }

  lemma EndStep(u: seq<Item>, v: seq<Item>, n: nat)
    requires u != [] && v != [] && n > 0 && u[|u| - 1] == v[|v| - 1]
    requires
      var out := Elements(u) - Elements(v);
      && Elements(u[..|u| - 1]) - Elements(v[..|v| - 1]) == out
      && |After(Elements(v), out)| == |After(Elements(v[..|v| - 1]), out)| + 1
    requires EndsAgree(u[..|u| - 1], v[..|v| - 1], n - 1)
    ensures EndsAgree(u, v, n)
  {
    hide Before, LastItems, Elements, After;
    LastItemsStep(u, n);
    LastItemsStep(v, n);
    var a, b, last := LastItems(u[..|u| - 1], n - 1), LastItems(v[..|v| - 1], n - 1), u[|u| - 1];
    assert a + [last] == b + [last] <==> a == b by {
      assert (a + [last])[..|a + [last]| - 1] == a && (b + [last])[..|b + [last]| - 1] == b;
    }
  }

  lemma NothingAfterLast(u: seq<Item>, v: seq<Item>)
    requires Sorted(u) && u != [] && Elements(v) <= Elements(u) && u[|u| - 1] !in v
    ensures After(Elements(v), Elements(u) - Elements(v)) == {}
  {
    var last := u[|u| - 1];
    forall y | y in v ensures !Before(last, y) {
      assert y in Elements(v);
      LastIsGreatest(u, y);
      BeforeIsStrict(last, y);
    }
    assert last in Elements(u) - Elements(v);
  }

  lemma EndsTogether(u: seq<Item>, v: seq<Item>)
    requires Sorted(u) && Sorted(v) && u != [] && Elements(v) <= Elements(u) && u[|u| - 1] in v
    ensures v != [] && v[|v| - 1] == u[|u| - 1]
  {
    assert v[|v| - 1] in Elements(v);
    LastIsGreatest(u, v[|v| - 1]);
    LastIsGreatest(v, u[|u| - 1]);
    BeforeIsStrict(u[|u| - 1], v[|v| - 1]);
  }

  lemma InitElements(u: seq<Item>)
    requires Sorted(u) && u != []
    ensures Elements(u[..|u| - 1]) == Elements(u) - {u[|u| - 1]} && Sorted(u[..|u| - 1])
    ensures AllBefore(Elements(u[..|u| - 1]), u[|u| - 1])
  {
    assert u == u[..|u| - 1] + [u[|u| - 1]];
    var init, last := u[..|u| - 1], u[|u| - 1];
    forall x | x in init ensures Before(x, last) && x != last {
      BeforeIsStrict(x, last);
    }
  }

  lemma CutEnds(u: seq<Item>, v: seq<Item>)
    requires Sorted(u) && Sorted(v) && u != [] && u[|u| - 1] in v && Elements(v) <= Elements(u)
    ensures v != [] && v[|v| - 1] == u[|u| - 1]
    ensures
      var u1, v1 := u[..|u| - 1], v[..|v| - 1];
      var out := Elements(u) - Elements(v);
      && Sorted(u1) && Sorted(v1) && Elements(v1) <= Elements(u1)
      && Elements(u1) - Elements(v1) == out
      && |After(Elements(v), out)| == |After(Elements(v1), out)| + 1
  {
    hide Before;
    EndsTogether(u, v);
    var last, out := u[|u| - 1], Elements(u) - Elements(v);
    InitElements(u);
    InitElements(v);
    assert last in Elements(v);
    assert forall x :: x in out ==> x in Elements(u[..|u| - 1]);
    assert After(Elements(v), out) == After(Elements(v[..|v| - 1]), out) + {last};
    assert last !in Elements(v[..|v| - 1]);
  }

  // ---- Bounding between two merges ----

  /** The batch has, under every id the timeline holds, the message the timeline holds. */
  ghost predicate AgreesWith(items: seq<Item>, b: seq<Message>) {
    forall k :: k in Entries(items) && k in Stores(b) ==> Entries(items)[k] == Stores(b)[k]
  }

  function Kept(t: Timeline): set<Item> {
    Elements(BoundedTimeline(t).items)
  }

  function Brought(b: seq<Message>): set<Item> {
    Stores(b).Values
  }

  predicate IsSettled(x: Item, b: seq<Message>) {
    x.Optimistic? && x.client in ClientIds(b)
  }

  /** The kept drafts that the batch settles. */
  function Settled(t: Timeline, b: seq<Message>): set<Item> {
    set x | x in Kept(t) && IsSettled(x, b)
  }

  /** What bounding dropped and the batch neither settles nor brings back. */
  function Forgotten(t: Timeline, b: seq<Message>): set<Item> {
    set x | x in Elements(t.items) && x !in Kept(t) && !IsSettled(x, b) && x !in Brought(b)
  }

  /** What the batch brings that was not kept and comes after everything forgotten. */
  ghost function Newer(t: Timeline, b: seq<Message>): set<Item> {
    After(Brought(b) - Kept(t), Forgotten(t, b))
  }

  lemma MergeElements(t: Timeline, b: seq<Message>)
    requires UniqueKeys(t.items) && AgreesWith(t.items, b)
    ensures forall x :: x in Merge(t, b).items <==> (x in t.items && !IsSettled(x, b)) || x in Brought(b)
    ensures forall x :: x in Brought(b) ==> x.Stored?
    ensures Sorted(Merge(t, b).items) && UniqueKeys(Merge(t, b).items)
  {
    EntriesHolds(t.items);
    StoresIsKeyed(b);
    var e := MergedEntries(Entries(t.items), b);
    var items := Arrange(e);
    EntriesHolds(items);
    hide Entries, Stores, Arrange, ClientIds;
    forall x ensures x in items <==> (x in t.items && !IsSettled(x, b)) || x in Brought(b) {
      if x in items { assert e[x.Key()] == x; }
      if x in t.items && !IsSettled(x, b) { assert x.Key() in e && e[x.Key()] == x; }
      if x in Brought(b) {
        var k :| k in Stores(b) && Stores(b)[k] == x;
        assert e[k] == x;
      }
    }
  }

  lemma {:induction false} ElementsSize(items: seq<Item>)
    requires UniqueKeys(items)
    ensures |Elements(items)| == |items|
  {
    if items != [] {
      var init, last := items[..|items| - 1], items[|items| - 1];
      ElementsSize(init);
      assert items == init + [last];
      assert forall x :: x in init ==> x.Key() != last.Key();
      assert Elements(items) == Elements(init) + {last};
    }
  }

  lemma SuffixIsSorted(items: seq<Item>, n: nat)
    requires Sorted(items) && UniqueKeys(items) && n <= |items|
    ensures Sorted(items[n..]) && UniqueKeys(items[n..]) && Elements(items[n..]) <= Elements(items)
  {
    hide Before;
  }

  lemma DroppedComeFirst(items: seq<Item>, n: nat, x: Item, y: Item)
    requires Sorted(items) && n <= |items| && x in items && x !in items[n..] && y in items[n..]
    ensures Before(x, y)
  {
    hide Before;
    var i :| 0 <= i < |items| && items[i] == x;
    var j :| 0 <= j < |items[n..]| && items[n..][j] == y;
    forall k | n <= k < |items| ensures items[k] in items[n..] {
      assert items[n..][k - n] == items[k];
    }
    assert items[n + j] == y;
  }

  lemma KeptIsLast(t: Timeline)
    requires Sorted(t.items) && UniqueKeys(t.items)
    ensures BoundedTimeline(t).items == LastItems(t.items, MAXIMUM_RENDERED_ITEMS)
    ensures Sorted(BoundedTimeline(t).items) && UniqueKeys(BoundedTimeline(t).items) && Kept(t) <= Elements(t.items)
    ensures |Kept(t)| == Min(|t.items|, MAXIMUM_RENDERED_ITEMS)
    ensures forall x, y :: x in Elements(t.items) - Kept(t) && y in Kept(t) ==> Before(x, y)
  {
    hide Before, Sorted, UniqueKeys;
    var n := if |t.items| <= MAXIMUM_RENDERED_ITEMS then 0 else |t.items| - MAXIMUM_RENDERED_ITEMS;
    assert BoundedTimeline(t).items == t.items[n..];
    SuffixIsSorted(t.items, n);
    ElementsSize(t.items[n..]);
    forall x, y | x in Elements(t.items) - Kept(t) && y in Kept(t) ensures Before(x, y) {
      DroppedComeFirst(t.items, n, x, y);
    }
  }

  /** A timeline agrees with a batch before it is bounded, and then also after. */
  lemma KeptAgrees(t: Timeline, b: seq<Message>)
    requires Sorted(t.items) && UniqueKeys(t.items) && AgreesWith(t.items, b)
    ensures AgreesWith(BoundedTimeline(t).items, b)
  {
    KeptIsLast(t);
    EntriesHolds(t.items);
    EntriesHolds(BoundedTimeline(t).items);
    hide Entries, Stores, Before, BoundedTimeline;
    var kept := BoundedTimeline(t).items;
    forall k | k in Entries(kept) && k in Stores(b) ensures Entries(kept)[k] == Stores(b)[k] {
      assert Entries(kept)[k] in Kept(t);
      assert Entries(kept)[k] in t.items;
    }
  }

  /** What comes after everything forgotten: the kept items that are not settled, and what is newer. */
  lemma AfterForgotten(t: Timeline, b: seq<Message>, v: set<Item>)
    requires Sorted(t.items) && UniqueKeys(t.items) && Forgotten(t, b) != {}
    requires forall x :: x in v <==> (x in Kept(t) && !IsSettled(x, b)) || x in Brought(b)
    requires forall x :: x in Brought(b) ==> x.Stored?
    ensures |After(v, Forgotten(t, b))| == MAXIMUM_RENDERED_ITEMS - |Settled(t, b)| + |Newer(t, b)|
  {
    hide Before, Sorted, UniqueKeys, IsSettled, Brought, After, AllBefore, Kept;
    SplitAfter(t, b, v);
    var kept, staying := Kept(t), Kept(t) - Settled(t, b);
    KeptIsLast(t);
    SomethingDropped(t, b);
    assert kept == staying + Settled(t, b);
    assert staying !! Newer(t, b) by { assert Newer(t, b) !! kept by { NewerIsNotKept(t, b); } }
  }

  lemma NewerIsNotKept(t: Timeline, b: seq<Message>)
    ensures Newer(t, b) !! Kept(t)
  {
  }

  lemma SomethingDropped(t: Timeline, b: seq<Message>)
    ensures Forgotten(t, b) != {} ==> |t.items| > MAXIMUM_RENDERED_ITEMS
  {
    if |t.items| <= MAXIMUM_RENDERED_ITEMS { WholeIsKept(t); }
  }

  lemma SplitAfter(t: Timeline, b: seq<Message>, v: set<Item>)
    requires Sorted(t.items) && UniqueKeys(t.items)
    requires forall x :: x in v <==> (x in Kept(t) && !IsSettled(x, b)) || x in Brought(b)
    requires forall x :: x in Brought(b) ==> x.Stored?
    ensures After(v, Forgotten(t, b)) == (Kept(t) - Settled(t, b)) + Newer(t, b)
  {
    KeptIsLast(t);
    hide Before, Sorted, UniqueKeys, Brought, Kept, ClientIds;
    var out := Forgotten(t, b);
    forall y | y in Kept(t) ensures AllBefore(out, y) {
    }
  }

  lemma WholeIsKept(t: Timeline)
    requires |t.items| <= MAXIMUM_RENDERED_ITEMS
    ensures BoundedTimeline(t) == t && Kept(t) == Elements(t.items)
  {
  }

  /**
   * Exactly when bounding early changes nothing: for a batch that agrees with the timeline, either
   * nothing is forgotten for good, or the batch brings at least as many new items after everything
   * forgotten as it settles drafts.
   */
  lemma EarlyBoundIsExact(t: Timeline, b: seq<Message>)
    requires Sorted(t.items) && UniqueKeys(t.items) && AgreesWith(t.items, b)
    ensures Update(BoundedTimeline(t), b) == Update(t, b)
      <==> Forgotten(t, b) == {} || |Settled(t, b)| <= |Newer(t, b)|
  {
    var t1 := BoundedTimeline(t);
    KeptIsLast(t);
    KeptAgrees(t, b);
    MergeElements(t, b);
    MergeElements(t1, b);
    var u, v := Merge(t, b), Merge(t1, b);
    hide Before, Sorted, UniqueKeys, AgreesWith, Merge, IsSettled, Brought;
    KeptIsLastOfMerged(u);
    KeptIsLastOfMerged(v);
    assert Elements(u.items) - Elements(v.items) == Forgotten(t, b);
    SameEnds(u.items, v.items, MAXIMUM_RENDERED_ITEMS);
    if Forgotten(t, b) != {} { AfterForgotten(t, b, Elements(v.items)); }
    SameCursor(t, b);
  }

  lemma KeptIsLastOfMerged(t: Timeline)
    ensures BoundedTimeline(t) == t.(items := LastItems(t.items, MAXIMUM_RENDERED_ITEMS))
  {
  }

  lemma SameCursor(t: Timeline, b: seq<Message>)
    ensures Merge(BoundedTimeline(t), b).lastSequence == Merge(t, b).lastSequence == Highest(t.lastSequence, b)
  {
  }

  // ---- Newer batches ----

  /** A batch in which an id stands for one message. */
  ghost predicate OnePerId(b: seq<Message>) {
    forall m, n :: m in b && n in b && m.id == n.id ==> m == n
  }

  function Drafts(items: seq<Item>): set<Item> {
    set x | x in items && x.Optimistic?
  }

  function Clients(items: set<Item>): set<ClientId> {
    set x | x in items :: x.ClientId()
  }

  lemma {:induction false} ClientsSize(items: set<Item>)
    ensures |Clients(items)| <= |items|
    ensures (forall x, y :: x in items && y in items && x.ClientId() == y.ClientId() ==> x == y) ==>
      |Clients(items)| == |items|
    decreases |items|
  {
    if items != {} {
      var x :| x in items;
      var rest := items - {x};
      ClientsSize(rest);
      assert items == rest + {x};
      assert Clients(items) == Clients(rest) + {x.ClientId()};
    }
  }

  lemma SubsetSize<T>(a: set<T>, b: set<T>)
    requires a <= b
    ensures |a| <= |b|
  {
    assert b == a + (b - a);
  }

  lemma {:induction false} BroughtAreMessages(b: seq<Message>)
    requires OnePerId(b)
    ensures forall x :: x in Brought(b) <==> x.Stored? && x.message in b
  {
    StoresIsKeyed(b);
    forall m | m in b ensures Stored(m) in Brought(b) {
      var k := OfMessage(m.id);
      assert k in Stores(b) && Stores(b)[k].message in b && Stores(b)[k].Key() == k;
      assert Stores(b)[k] == Stored(m);
    }
  }

  /** A batch settles no more drafts than it brings messages. */
  lemma SettlesAtMostItsMessages(t: Timeline, b: seq<Message>)
    requires Sorted(t.items) && UniqueKeys(t.items) && OnePerId(b)
    ensures |Settled(t, b)| <= |Brought(b)|
  {
    BroughtAreMessages(b);
    EntriesHolds(t.items);
    KeptIsLast(t);
    var settled := Settled(t, b);
    hide Entries, Stores, Before, Sorted, UniqueKeys, Brought, Kept;
    forall x, y | x in settled && y in settled && x.ClientId() == y.ClientId() ensures x == y {
      assert x in Elements(t.items) && y in Elements(t.items);
      assert Entries(t.items)[x.Key()] == x && Entries(t.items)[y.Key()] == y;
    }
    ClientsSize(settled);
    ClientsSize(Brought(b));
    forall c | c in Clients(settled) ensures c in Clients(Brought(b)) {
      var m :| m in b && m.client == c;
      assert Stored(m) in Brought(b);
      assert Stored(m).ClientId() == c;
    }
    SubsetSize(Clients(settled), Clients(Brought(b)));
  }

  /** As long as the drafts fit, only stored messages are dropped. */
  lemma DroppedAreStored(t: Timeline, x: Item)
    requires Sorted(t.items) && UniqueKeys(t.items) && |Drafts(t.items)| <= MAXIMUM_RENDERED_ITEMS
    requires x in Elements(t.items) && x !in Kept(t)
    ensures x.Stored?
  {
    KeptIsLast(t);
    if x.Optimistic? {
      forall y | y in Kept(t) ensures y in Drafts(t.items) { assert Before(x, y) && y in Elements(t.items); }
      SubsetSize(Kept(t) + {x}, Drafts(t.items));
      if |t.items| <= MAXIMUM_RENDERED_ITEMS { WholeIsKept(t); }
    }
  }

  /**
   * Bounding early changes nothing when the batch lies above the timeline's cursor, agrees with the
   * timeline on message ids, and the drafts alone do not exceed the bound.
   */
  lemma NewerBatchesAreExact(t: Timeline, b: seq<Message>)
    requires Tidy(t) && |Drafts(t.items)| <= MAXIMUM_RENDERED_ITEMS && OnePerId(b) && AgreesWith(t.items, b)
    requires forall m :: m in b ==> m.sequence > t.lastSequence
    ensures Update(BoundedTimeline(t), b) == Update(t, b)
  {
    EarlyBoundIsExact(t, b);
    if Forgotten(t, b) != {} {
      SettlesAtMostItsMessages(t, b);
      NewerIsAll(t, b);
    }
  }

  lemma NewerIsAll(t: Timeline, b: seq<Message>)
    requires Tidy(t) && |Drafts(t.items)| <= MAXIMUM_RENDERED_ITEMS && OnePerId(b)
    requires forall m :: m in b ==> m.sequence > t.lastSequence
    ensures Newer(t, b) == Brought(b)
  {
    BroughtAreMessages(b);
    KeptIsLast(t);
    hide Brought, Kept, Sorted, UniqueKeys;
    var out := Forgotten(t, b);
    forall y | y in Brought(b) ensures y !in Kept(t) && AllBefore(out, y) {
      assert y !in Elements(t.items);
      forall x | x in out ensures Before(x, y) { DroppedAreStored(t, x); }
    }
  }

  /** The timeline and the messages have one message under an id. */
  ghost predicate Consistent(items: seq<Item>, b: seq<Message>) {
    && OnePerId(b)
    && forall x, m :: x in items && x.Stored? && m in b && x.message.id == m.id ==> x.message == m
  }

  lemma ConsistentAgrees(items: seq<Item>, b: seq<Message>)
    requires Consistent(items, b)
    ensures AgreesWith(items, b)
  {
    EntriesHolds(items);
    StoresIsKeyed(b);
    forall k | k in Entries(items) && k in Stores(b) ensures Entries(items)[k] == Stores(b)[k] {
      var x, y := Entries(items)[k], Stores(b)[k];
      assert x in items && x.Key() == k == y.Key() && y.message in b;
      assert x.Stored? && x.message.id == y.message.id;
    }
  }

  lemma MergedDrafts(t: Timeline, a: seq<Message>)
    requires Tidy(t) && AgreesWith(t.items, a)
    ensures |Drafts(Merge(t, a).items)| <= |t.items|
  {
    MergeElements(t, a);
    ElementsSize(t.items);
    SubsetSize(Drafts(Merge(t, a).items), Elements(t.items));
  }

  /**
   * Pages that come in order are merged and bounded one after another as if they had come at once:
   * for a tidy timeline within the bound, messages consistent with it, and a second page above all
   * that the first left behind.
   */
  lemma PagesAreExact(t: Timeline, a: seq<Message>, b: seq<Message>)
    requires Tidy(t) && |t.items| <= MAXIMUM_RENDERED_ITEMS && Consistent(t.items, a + b)
    requires forall m :: m in b ==> m.sequence > Highest(t.lastSequence, a)
    ensures Update(Update(t, a), b) == Update(t, a + b)
  {
    var merged := Merge(t, a);
    assert forall m :: m in a || m in b <==> m in a + b;
    ConsistentAgrees(t.items, a);
    MergeElements(t, a);
    BroughtAreMessages(a);
    hide Entries, Stores, Tidy, Merge, BoundedTimeline, AgreesWith, Highest, Brought;
    MergeIsTidy(t, a);
    MergedDrafts(t, a);
    forall x, m | x in merged.items && x.Stored? && m in b && x.message.id == m.id ensures x.message == m {
      assert x in t.items || x.message in a;
    }
    ConsistentAgrees(merged.items, b);
    MergeCursor(t, a);
    NewerBatchesAreExact(merged, b);
    MergeConcat(t, a, b);
  }

  lemma MergeCursor(t: Timeline, a: seq<Message>)
    ensures Merge(t, a).lastSequence == Highest(t.lastSequence, a)
  {
  }

  // ---- Where bounding early does show ----

  /** As many stored messages as fit, and one draft on top. */
  function Overfull(text: string): Timeline {
    var stored := seq(MAXIMUM_RENDERED_ITEMS,
      i requires 0 <= i < MAXIMUM_RENDERED_ITEMS => Stored(Message(i + 1, i + 1, i + 1, text)));
    Timeline(stored + [Optimistic(0, 0, false, text)], MAXIMUM_RENDERED_ITEMS)
  }

  lemma OverfullIsTidy(text: string)
    ensures Tidy(Overfull(text)) && |Overfull(text).items| == MAXIMUM_RENDERED_ITEMS + 1
    ensures forall i :: 0 <= i < MAXIMUM_RENDERED_ITEMS ==>
      Overfull(text).items[i] == Stored(Message(i + 1, i + 1, i + 1, text))
    ensures Overfull(text).items[MAXIMUM_RENDERED_ITEMS] == Optimistic(0, 0, false, text)
  {
  }

  /**
   * A batch from below: the message of the one draft, older than everything. The draft goes, a place
   * gets free, and the panel fills it with the old message where one merge would have kept the
   * message that was forgotten.
   */
  lemma OlderBatchesMayDiffer(text: string)
    ensures
      var t, b := Overfull(text), [Message(0, 0, 0, text)];
      Tidy(t) && AgreesWith(t.items, b) && Update(BoundedTimeline(t), b) != Update(t, b)
  {
    var t, b := Overfull(text), [Message(0, 0, 0, text)];
    var older, first, draft := Stored(b[0]), Stored(Message(1, 1, 1, text)), Optimistic(0, 0, false, text);
    OverfullIsTidy(text);
    BroughtAreMessages(b);
    OldIsNew(t, b);
    KeptIsLast(t);
    hide Overfull, Entries, Stores, Tidy;
    var kept := BoundedTimeline(t).items;
    assert kept == t.items[1..];
    assert kept[MAXIMUM_RENDERED_ITEMS - 1] == draft;
    assert draft in Settled(t, b) by { assert b[0].client in ClientIds(b); }
    assert first !in Kept(t) by {
      forall i | 0 <= i < |kept| ensures kept[i] != first { assert kept[i] == t.items[i + 1]; }
    }
    assert t.items[0] == first;
    assert first in Forgotten(t, b);
    assert forall y :: y in Brought(b) ==> y == older && !Before(first, y);
    assert Newer(t, b) == {};
    EarlyBoundIsExact(t, b);
  }

  lemma OldIsNew(t: Timeline, b: seq<Message>)
    requires forall x, m :: x in t.items && m in b ==> x.Key() != OfMessage(m.id)
    ensures AgreesWith(t.items, b)
  {
    EntriesHolds(t.items);
    StoresIsKeyed(b);
    forall k | k in Stores(b) ensures k !in Entries(t.items) {
      assert k == OfMessage(Stores(b)[k].message.id);
    }
  }
}
