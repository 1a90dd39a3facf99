/** The client's timeline: drafts waiting to be stored, and stored messages. */
module Timeline {
  import opened Collections
  import opened Messages

  /**
   * Ids are numbered in the order the collation gives them. A draft's id is its client id behind a
   * fixed prefix, which no stored id has.
   */
  datatype Key = OfMessage(id: MessageId) | OfDraft(client: ClientId)

  datatype Item =
    | Optimistic(client: ClientId, sender: nat, failed: bool, text: string)
    | Stored(message: Message)
  {
    function Key(): Key {
      match this
      case Optimistic(client, _, _, _) => OfDraft(client)
      case Stored(message) => OfMessage(message.id)
    }

    function ClientId(): ClientId {
      match this
      case Optimistic(client, _, _, _) => client
      case Stored(message) => message.client
    }
  }

  datatype Timeline = Timeline(items: seq<Item>, lastSequence: nat)

  const EMPTY := Timeline([], 0)
  const MAXIMUM_RENDERED_ITEMS := 400

  /** The comparison of the sort: stored messages by sequence and id, then drafts by client id. */
  predicate Before(a: Item, b: Item) {
    match (a, b)
    case (Optimistic(_, _, _, _), Optimistic(_, _, _, _)) => a.client < b.client
    case (Optimistic(_, _, _, _), Stored(_)) => false
    case (Stored(_), Optimistic(_, _, _, _)) => true
    case (Stored(m), Stored(n)) => m.sequence < n.sequence || (m.sequence == n.sequence && m.id < n.id)
  }

  ghost predicate Sorted(items: seq<Item>) {
    forall i, j :: 0 <= i < j < |items| ==> Before(items[i], items[j])
  }

  ghost predicate UniqueKeys(items: seq<Item>) {
    forall i, j :: 0 <= i < j < |items| ==> items[i].Key() != items[j].Key()
  }

  // ---- Sorting ----

  function Insert(items: seq<Item>, x: Item): seq<Item> {
    if items == [] then [x]
    else if Before(x, items[0]) then [x] + items
    else [items[0]] + Insert(items[1..], x)
  }

  /** A stable sort under the comparison. */
  function SortTimeline(items: seq<Item>): seq<Item> {
    if items == [] then [] else Insert(SortTimeline(items[..|items| - 1]), items[|items| - 1])
  }

  lemma BeforeIsTransitive(a: Item, b: Item, c: Item)
    requires Before(a, b) && Before(b, c)
    ensures Before(a, c)
  {
  }

  lemma BeforeIsTotal(a: Item, b: Item)
    requires a.Key() != b.Key()
    ensures Before(a, b) || Before(b, a)
  {
  }

  lemma PrependSorted(x: Item, items: seq<Item>)
    requires Sorted(items) && forall y :: y in items ==> Before(x, y)
    ensures Sorted([x] + items)
  {
    hide Before;
    forall i, j | 0 <= i < j < |items| + 1 ensures Before(([x] + items)[i], ([x] + items)[j]) {
      assert items[j - 1] in items;
    }
  }

  lemma {:induction false} InsertIsSorted(items: seq<Item>, x: Item)
    requires Sorted(items) && forall y :: y in items ==> y.Key() != x.Key()
    ensures Sorted(Insert(items, x))
    ensures forall y :: y in Insert(items, x) <==> y in items || y == x
  {
    hide Before;
    if items != [] {
      var first, rest := items[0], items[1..];
      assert items == [first] + rest;
      assert first in items;
      forall y | y in rest ensures Before(first, y) {
        var i :| 0 <= i < |rest| && rest[i] == y;
        assert items[i + 1] == y;
      }
      if Before(x, first) {
        forall y | y in items ensures Before(x, y) {
          if y != first { BeforeIsTransitive(x, first, y); }
        }
        PrependSorted(x, items);
      } else {
        BeforeIsTotal(x, first);
        InsertIsSorted(rest, x);
        PrependSorted(first, Insert(rest, x));
      }
    }
  }

  /** Items with different ids come out in strict order, none lost and none added. */
  lemma {:induction false} SortTimelineIsSorted(items: seq<Item>)
    requires UniqueKeys(items)
    ensures Sorted(SortTimeline(items)) && forall y :: y in SortTimeline(items) <==> y in items
  {
    if items != [] {
      var rest, x := items[..|items| - 1], items[|items| - 1];
      SortTimelineIsSorted(rest);
      assert items == rest + [x];
      forall y | y in rest ensures y.Key() != x.Key() {
        var i :| 0 <= i < |rest| && rest[i] == y;
        assert items[i] == y;
      }
      InsertIsSorted(SortTimeline(rest), x);
    }
  }

  /** There is only one way to put items in strict order. */
  lemma {:induction false} OrderIsUnique(a: seq<Item>, b: seq<Item>)
    requires Sorted(a) && Sorted(b) && forall x :: x in a <==> x in b
    ensures a == b
  {
    assert a != [] ==> a[0] in b;
    assert b != [] ==> b[0] in a;
    if a != [] && b != [] {
      assert a[0] == b[0] by {
        assert a[0] in b && b[0] in a;
        var i :| 0 <= i < |b| && b[i] == a[0];
        var j :| 0 <= j < |a| && a[j] == b[0];
      }
      forall x | x in a[1..] ensures x in b[1..] { InTail(a, x); InTail(b, x); }
      forall x | x in b[1..] ensures x in a[1..] { InTail(b, x); InTail(a, x); }
      OrderIsUnique(a[1..], b[1..]);
      assert a == [a[0]] + a[1..] && b == [b[0]] + b[1..];
    }
  }

  lemma InTail(s: seq<Item>, x: Item)
    requires Sorted(s) && s != []
    ensures x in s[1..] <==> x in s && x != s[0]
  {
    if x in s && x != s[0] {
      var i :| 0 <= i < |s| && s[i] == x;
      assert s[1..][i - 1] == x;
    }
    if x in s[1..] {
      var i :| 0 <= i < |s[1..]| && s[1..][i] == x;
      assert s[i + 1] == x;
    }
  }

  // ---- What a timeline holds ----

  /** The items by id; a later item replaces an earlier one of the same id. */
  function Entries(items: seq<Item>): map<Key, Item> {
    if items == [] then map[]
    else Entries(items[..|items| - 1])[items[|items| - 1].Key() := items[|items| - 1]]
  }

  function Stores(messages: seq<Message>): map<Key, Item> {
    if messages == [] then map[]
    else Stores(messages[..|messages| - 1])[OfMessage(messages[|messages| - 1].id) := Stored(messages[|messages| - 1])]
  }

  function ClientIds(messages: seq<Message>): set<ClientId> {
    set m | m in messages :: m.client
  }

  function WithoutDrafts(e: map<Key, Item>, clients: set<ClientId>): map<Key, Item> {
    map k | k in e && !(k.OfDraft? && k.client in clients) :: e[k]
  }

  function Highest(last: nat, messages: seq<Message>): (r: nat)
    ensures r >= last && forall m :: m in messages ==> r >= m.sequence
  {
    if messages == [] then last
    else
      assert messages == messages[..|messages| - 1] + [messages[|messages| - 1]];
      Max(Highest(last, messages[..|messages| - 1]), messages[|messages| - 1].sequence)
  }

  ghost predicate Keyed(e: map<Key, Item>) {
    forall k :: k in e ==> e[k].Key() == k
  }

  lemma {:induction false} EntriesHolds(items: seq<Item>)
    ensures Keyed(Entries(items)) && forall k :: k in Entries(items) ==> Entries(items)[k] in items
    ensures forall x :: x in items ==> x.Key() in Entries(items)
    ensures UniqueKeys(items) ==> forall x :: x in items ==> Entries(items)[x.Key()] == x
  {
    if items != [] {
      var rest, x := items[..|items| - 1], items[|items| - 1];
      EntriesHolds(rest);
      assert items == rest + [x];
      if UniqueKeys(items) {
        forall y | y in rest ensures y.Key() != x.Key() {
          var i :| 0 <= i < |rest| && rest[i] == y;
          assert items[i] == y;
        }
      }
    }
  }

  /** Items of one id are one item, so a timeline is told by what it holds. */
  lemma SameEntriesSameItems(a: seq<Item>, b: seq<Item>)
    requires UniqueKeys(a) && UniqueKeys(b) && Entries(a) == Entries(b)
    ensures forall x :: x in a <==> x in b
  {
    EntriesHolds(a);
    EntriesHolds(b);
  }

  lemma SortTimelineKeepsEntries(items: seq<Item>)
    requires UniqueKeys(items)
    ensures Sorted(SortTimeline(items)) && UniqueKeys(SortTimeline(items))
      && Entries(SortTimeline(items)) == Entries(items)
  {
    var r := SortTimeline(items);
    SortTimelineIsSorted(items);
    forall i, j | 0 <= i < j < |r| ensures r[i].Key() != r[j].Key() {
      assert Before(r[i], r[j]) && r[i] in items && r[j] in items;
    }
    EntriesHolds(items);
    EntriesHolds(r);
  }

  lemma {:induction false} ListingExists(e: map<Key, Item>)
    requires Keyed(e)
    ensures exists items :: UniqueKeys(items) && Entries(items) == e
    decreases |e|
  {
    if e == map[] {
      assert UniqueKeys([]) && Entries([]) == e;
    } else {
      var k :| k in e;
      var rest := e - {k};
      assert rest[k := e[k]] == e;
      ListingExists(rest);
      var items :| UniqueKeys(items) && Entries(items) == rest;
      EntriesHolds(items);
      var more := items + [e[k]];
      assert more[..|items|] == items;
      assert UniqueKeys(more) && Entries(more) == e;
    }
  }

  /** The one sorted listing of some items. */
  ghost function Arrange(e: map<Key, Item>): (items: seq<Item>)
    requires Keyed(e)
    ensures Sorted(items) && UniqueKeys(items) && Entries(items) == e
  {
    ListingExists(e);
    var items :| UniqueKeys(items) && Entries(items) == e;
    SortTimelineKeepsEntries(items);
    SortTimeline(items)
  }

  lemma ArrangeIsUnique(items: seq<Item>)
    requires Sorted(items) && UniqueKeys(items)
    ensures Keyed(Entries(items)) && Arrange(Entries(items)) == items
  {
    EntriesHolds(items);
    SameEntriesSameItems(items, Arrange(Entries(items)));
    OrderIsUnique(items, Arrange(Entries(items)));
  }

  // ---- Merging ----

  lemma {:induction false} StoresIsKeyed(messages: seq<Message>)
    ensures Keyed(Stores(messages))
    ensures forall k :: k in Stores(messages) ==>
      k.OfMessage? && Stores(messages)[k].Stored? && Stores(messages)[k].message in messages
    ensures forall m :: m in messages ==> OfMessage(m.id) in Stores(messages)
  {
    if messages != [] {
      StoresIsKeyed(messages[..|messages| - 1]);
      assert messages == messages[..|messages| - 1] + [messages[|messages| - 1]];
    }
  }

  ghost function MergedEntries(e: map<Key, Item>, messages: seq<Message>): (r: map<Key, Item>)
    requires Keyed(e)
    ensures Keyed(r)
  {
    StoresIsKeyed(messages);
    WithoutDrafts(e, ClientIds(messages)) + Stores(messages)
  }

  /** What a merge is: the drafts that came back are gone, the messages are in, everything is in order. */
  ghost function Merge(t: Timeline, messages: seq<Message>): Timeline {
    EntriesHolds(t.items);
    Timeline(Arrange(MergedEntries(Entries(t.items), messages)), Highest(t.lastSequence, messages))
  }

  lemma ValuesListed(m: OrderedMap<Key, Item>)
    requires m.Valid() && Keyed(m.entries)
    ensures UniqueKeys(m.Values()) && Entries(m.Values()) == m.entries
  {
    var values := m.Values();
    EntriesHolds(values);
    forall k | k in m.entries ensures k in Entries(values) && Entries(values)[k] == m.entries[k] {
      assert k in m.order;
      var i :| 0 <= i < |values| && m.order[i] == k;
      assert values[i] in values;
    }
    forall k | k in Entries(values) ensures k in m.entries {
      var i :| 0 <= i < |values| && values[i] == Entries(values)[k];
    }
  }

  lemma KeepStep(items: seq<Item>, i: nat, clients: set<ClientId>)
    requires i < |items|
    ensures
      var e := WithoutDrafts(Entries(items[..i]), clients);
      WithoutDrafts(Entries(items[..i + 1]), clients) ==
        if items[i].Optimistic? && items[i].client in clients then e else e[items[i].Key() := items[i]]
  {
    assert items[..i + 1][..i] == items[..i];
  }

  lemma StoreStep(e: map<Key, Item>, last: nat, messages: seq<Message>, i: nat)
    requires i < |messages|
    ensures e + Stores(messages[..i + 1])
      == (e + Stores(messages[..i]))[OfMessage(messages[i].id) := Stored(messages[i])]
    ensures Highest(last, messages[..i + 1]) == Max(Highest(last, messages[..i]), messages[i].sequence)
  {
    assert messages[..i + 1][..i] == messages[..i];
  }

  method MergeStoredMessages(state: Timeline, messages: seq<Message>) returns (r: Timeline)
    ensures r == Merge(state, messages)
  {
    var byMessageId: OrderedMap<Key, Item> := OrderedMap([], map[]);
    var storedClientIds := ClientIds(messages);
    assert byMessageId.Valid() && byMessageId.entries == WithoutDrafts(Entries(state.items[..0]), storedClientIds);
    assert Stores(messages[..0]) == map[] && Highest(state.lastSequence, messages[..0]) == state.lastSequence;
    hide OrderedMap.Valid, WithoutDrafts, Arrange, Entries, Stores, Highest, SortTimeline, ClientIds, UniqueKeys,
      Sorted;
    for i := 0 to |state.items|
      invariant byMessageId.Valid() && byMessageId.entries == WithoutDrafts(Entries(state.items[..i]), storedClientIds)
    {
      KeepStep(state.items, i, storedClientIds);
      var item := state.items[i];
      if item.Optimistic? {
        if item.client !in storedClientIds {
          byMessageId := byMessageId.Set(item.Key(), item);
        }
        continue;
      }
      byMessageId := byMessageId.Set(item.Key(), item);
    }
    assert state.items[..|state.items|] == state.items;
    ghost var kept := byMessageId.entries;
    var lastSequence := state.lastSequence;
    for i := 0 to |messages|
      invariant byMessageId.Valid() && byMessageId.entries == kept + Stores(messages[..i])
      invariant lastSequence == Highest(state.lastSequence, messages[..i])
    {
      StoreStep(kept, state.lastSequence, messages, i);
      var message := messages[i];
      byMessageId := byMessageId.Set(OfMessage(message.id), Stored(message));
      lastSequence := Max(lastSequence, message.sequence);
    }
    assert messages[..|messages|] == messages;
    EntriesHolds(state.items);
    assert byMessageId.entries == MergedEntries(Entries(state.items), messages);
    ValuesListed(byMessageId);
    SortTimelineKeepsEntries(byMessageId.Values());
    ArrangeIsUnique(SortTimeline(byMessageId.Values()));
    r := Timeline(SortTimeline(byMessageId.Values()), lastSequence);
  }

  // ---- Convergence ----

  lemma {:induction false} StoresOfBoth(a: seq<Message>, b: seq<Message>)
    ensures Stores(a + b) == Stores(a) + Stores(b)
  {
    if b == [] {
      assert a + b == a;
    } else {
      StoresOfBoth(a, b[..|b| - 1]);
      assert (a + b)[..|a + b| - 1] == a + b[..|b| - 1];
    }
  }

  lemma {:induction false} HighestOfBoth(last: nat, a: seq<Message>, b: seq<Message>)
    ensures Highest(last, a + b) == Highest(Highest(last, a), b)
  {
    if b == [] {
      assert a + b == a;
    } else {
      HighestOfBoth(last, a, b[..|b| - 1]);
      assert (a + b)[..|a + b| - 1] == a + b[..|b| - 1];
    }
  }

  lemma DraftsTwice(e: map<Key, Item>, stores: map<Key, Item>, a: set<ClientId>, b: set<ClientId>)
    requires forall k :: k in stores ==> k.OfMessage?
    ensures WithoutDrafts(WithoutDrafts(e, a) + stores, b) == WithoutDrafts(e, a + b) + stores
  {
  }

  lemma PlusAssociates(e: map<Key, Item>, a: map<Key, Item>, b: map<Key, Item>)
    ensures (e + a) + b == e + (a + b)
  {
  }

  lemma MergedTwice(e: map<Key, Item>, a: seq<Message>, b: seq<Message>)
    requires Keyed(e)
    ensures MergedEntries(MergedEntries(e, a), b) == MergedEntries(e, a + b)
  {
    StoresOfBoth(a, b);
    StoresIsKeyed(a);
    ClientIdsOfBoth(a, b);
    DraftsTwice(e, Stores(a), ClientIds(a), ClientIds(b));
    PlusAssociates(WithoutDrafts(e, ClientIds(a + b)), Stores(a), Stores(b));
    hide Stores, ClientIds, Keyed, WithoutDrafts;
  }

  lemma ClientIdsOfBoth(a: seq<Message>, b: seq<Message>)
    ensures ClientIds(a + b) == ClientIds(a) + ClientIds(b)
  {
  }

  /** Two merges are one merge of the concatenation. */
  lemma MergeConcat(t: Timeline, a: seq<Message>, b: seq<Message>)
    ensures Merge(Merge(t, a), b) == Merge(t, a + b)
  {
    EntriesHolds(t.items);
    MergedTwice(Entries(t.items), a, b);
    HighestOfBoth(t.lastSequence, a, b);
  }

  /** The last message each batch has for an id agrees with the other batch's. */
  ghost predicate Agree(a: seq<Message>, b: seq<Message>) {
    forall k :: k in Stores(a) && k in Stores(b) ==> Stores(a)[k] == Stores(b)[k]
  }

  lemma {:induction false} HighestIsLeast(last: nat, messages: seq<Message>)
    ensures Highest(last, messages) == last || exists m :: m in messages && m.sequence == Highest(last, messages)
  {
    if messages != [] {
      HighestIsLeast(last, messages[..|messages| - 1]);
      assert messages == messages[..|messages| - 1] + [messages[|messages| - 1]];
    }
  }

  lemma HighestCommutes(last: nat, a: seq<Message>, b: seq<Message>)
    ensures Highest(last, a + b) == Highest(last, b + a)
  {
    HighestIsLeast(last, a + b);
    HighestIsLeast(last, b + a);
    assert forall m :: m in a + b <==> m in b + a;
  }

  /** The order of two batches does not matter exactly when they agree on every message id. */
  lemma MergeCommutes(t: Timeline, a: seq<Message>, b: seq<Message>)
    ensures Merge(Merge(t, a), b) == Merge(Merge(t, b), a) <==> Agree(a, b)
  {
    hide Stores, Arrange, Highest, Entries;
    MergeConcat(t, a, b);
    MergeConcat(t, b, a);
    HighestCommutes(t.lastSequence, a, b);
    EntriesHolds(t.items);
    MergedEntriesCommute(Entries(t.items), a, b);
  }

  lemma MergedEntriesCommute(e: map<Key, Item>, a: seq<Message>, b: seq<Message>)
    requires Keyed(e)
    ensures MergedEntries(e, a + b) == MergedEntries(e, b + a) <==> Agree(a, b)
  {
    hide Stores;
    StoresOfBoth(a, b);
    StoresOfBoth(b, a);
    assert ClientIds(a + b) == ClientIds(b + a);
    if Agree(a, b) {
      assert Stores(a) + Stores(b) == Stores(b) + Stores(a);
    } else {
      var k :| k in Stores(a) && k in Stores(b) && Stores(a)[k] != Stores(b)[k];
      assert MergedEntries(e, a + b)[k] == Stores(b)[k] && MergedEntries(e, b + a)[k] == Stores(a)[k];
    }
  }

  /** Merging a batch again changes nothing. */
  lemma MergeIdempotent(t: Timeline, messages: seq<Message>)
    ensures Merge(Merge(t, messages), messages) == Merge(t, messages)
  {
    MergeConcat(t, messages, messages);
    StoresOfBoth(messages, messages);
    assert Stores(messages) + Stores(messages) == Stores(messages);
    assert ClientIds(messages + messages) == ClientIds(messages);
    HighestOfBoth(t.lastSequence, messages, messages);
    HighestIsLeast(Highest(t.lastSequence, messages), messages);
  }

  // ---- Every timeline the client can reach ----

  function EnqueueOptimisticMessage(t: Timeline, client: ClientId, sender: nat, text: string): Timeline {
    if exists x :: x in t.items && x.ClientId() == client then
      t.(items := Restatused(t.items, client, false))
    else
      t.(items := SortTimeline(t.items + [Optimistic(client, sender, false, text)]))
  }

  function FailOptimisticMessage(t: Timeline, client: ClientId): Timeline {
    t.(items := Restatused(t.items, client, true))
  }

  function Restatused(items: seq<Item>, client: ClientId, failed: bool): seq<Item> {
    seq(|items|, i requires 0 <= i < |items| => Restatus(items[i], client, failed))
  }

  function Restatus(x: Item, client: ClientId, failed: bool): Item {
    if x.Optimistic? && x.client == client then x.(failed := failed) else x
  }

  /** Only the newest items are kept; the oldest stored ones go first. */
  function BoundedTimeline(t: Timeline): Timeline {
    if |t.items| <= MAXIMUM_RENDERED_ITEMS then t else t.(items := t.items[|t.items| - MAXIMUM_RENDERED_ITEMS..])
  }

  datatype Act =
    | Enqueue(client: ClientId, sender: nat, text: string)
    | Fail(client: ClientId)
    | MergeBatch(messages: seq<Message>)
    | Bound

  ghost function Do(t: Timeline, act: Act): Timeline {
    match act
    case Enqueue(client, sender, text) => EnqueueOptimisticMessage(t, client, sender, text)
    case Fail(client) => FailOptimisticMessage(t, client)
    case MergeBatch(messages) => Merge(t, messages)
    case Bound => BoundedTimeline(t)
  }

  ghost function DoAll(t: Timeline, acts: seq<Act>): Timeline
    decreases acts
  {
    if acts == [] then t else DoAll(Do(t, acts[0]), acts[1..])
  }

  /** No client id is both waiting and stored. */
  ghost predicate DraftsAreWaiting(items: seq<Item>) {
    forall x, y :: x in items && y in items && x.Optimistic? && y.Stored? ==> x.client != y.message.client
  }

  ghost predicate Covered(items: seq<Item>, last: nat) {
    forall x :: x in items && x.Stored? ==> x.message.sequence <= last
  }

  ghost predicate Tidy(t: Timeline) {
    && Sorted(t.items)
    && UniqueKeys(t.items)
    && DraftsAreWaiting(t.items)
    && Covered(t.items, t.lastSequence)
  }

  lemma RestatusIsTidy(t: Timeline, client: ClientId, failed: bool)
    requires Tidy(t)
    ensures Tidy(t.(items := Restatused(t.items, client, failed)))
  {
    var r := Restatused(t.items, client, failed);
    forall x | x in r ensures exists y :: y in t.items && y.Key() == x.Key() && (x.Stored? ==> y == x) {
      var i :| 0 <= i < |r| && r[i] == x;
      assert t.items[i] in t.items;
    }
  }

  lemma EnqueueIsTidy(t: Timeline, client: ClientId, sender: nat, text: string)
    requires Tidy(t) && forall x :: x in t.items ==> x.ClientId() != client
    ensures Tidy(EnqueueOptimisticMessage(t, client, sender, text))
  {
    var draft := Optimistic(client, sender, false, text);
    NewDraftEntries(t.items, client, sender, text);
    SortTimelineIsSorted(t.items + [draft]);
    SortTimelineKeepsEntries(t.items + [draft]);
  }

  lemma {:induction false} RestatusEntries(items: seq<Item>, client: ClientId, failed: bool)
    ensures Entries(Restatused(items, client, failed)) == map k | k in Entries(items) ::
      Restatus(Entries(items)[k], client, failed)
  {
    if items != [] {
      var r := Restatused(items, client, failed);
      RestatusEntries(items[..|items| - 1], client, failed);
      assert r[..|r| - 1] == Restatused(items[..|items| - 1], client, failed);
    }
  }

  /**
   * Failing or resending touches only the draft of that client id and keeps its text; sending adds
   * a draft when the client id is new, and changes nothing when it is stored.
   */
  lemma DraftsFollowTheirMessage(t: Timeline, client: ClientId, sender: nat, text: string)
    requires Tidy(t)
    ensures
      var e := Entries(t.items);
      var isNew := forall x :: x in t.items ==> x.ClientId() != client;
      && Entries(FailOptimisticMessage(t, client).items) == (map k | k in e :: Restatus(e[k], client, true))
      && Entries(EnqueueOptimisticMessage(t, client, sender, text).items) ==
           (if isNew then e[OfDraft(client) := Optimistic(client, sender, false, text)]
            else map k | k in e :: Restatus(e[k], client, false))
      && ((exists x :: x in t.items && x.Stored? && x.ClientId() == client) ==>
            Entries(EnqueueOptimisticMessage(t, client, sender, text).items) == e)
  {
    hide Entries, SortTimeline, Sorted;
    RestatusEntries(t.items, client, true);
    RestatusEntries(t.items, client, false);
    EntriesHolds(t.items);
    if forall x :: x in t.items ==> x.ClientId() != client { NewDraftEntries(t.items, client, sender, text); }
  }

  /**
   * The same item by item: failing marks the waiting draft of the client id and keeps its text, sending
   * it again unmarks it, and sending anew adds one unmarked draft; nothing else changes.
   */
  lemma DraftsItemByItem(t: Timeline, client: ClientId, sender: nat, text: string)
    requires Tidy(t)
    ensures
      var f := FailOptimisticMessage(t, client);
      && f.lastSequence == t.lastSequence && |f.items| == |t.items|
      && forall i :: 0 <= i < |t.items| ==>
           f.items[i] ==
             if t.items[i].Optimistic? && t.items[i].client == client
             then Optimistic(client, t.items[i].sender, true, t.items[i].text) else t.items[i]
    ensures
      var e := EnqueueOptimisticMessage(t, client, sender, text);
      && e.lastSequence == t.lastSequence
      && if forall x :: x in t.items ==> (if x.Optimistic? then x.client else x.message.client) != client then
           forall x :: x in e.items <==> x in t.items || x == Optimistic(client, sender, false, text)
         else
           && |e.items| == |t.items|
           && forall i :: 0 <= i < |t.items| ==>
                e.items[i] ==
                  if t.items[i].Optimistic? && t.items[i].client == client
                  then Optimistic(client, t.items[i].sender, false, t.items[i].text) else t.items[i]
  {
    hide SortTimeline, Sorted;
    if forall x :: x in t.items ==> x.ClientId() != client {
      NewDraftEntries(t.items, client, sender, text);
      SortTimelineIsSorted(t.items + [Optimistic(client, sender, false, text)]);
    }
  }

  /** The last message the batch has under its id. */
  ghost predicate IsLastOfId(messages: seq<Message>, m: Message) {
    exists i :: 0 <= i < |messages| && messages[i] == m && forall j :: i < j < |messages| ==> messages[j].id != m.id
  }

  lemma {:induction false} StoresTheLast(messages: seq<Message>, m: Message)
    ensures OfMessage(m.id) in Stores(messages) && Stores(messages)[OfMessage(m.id)] == Stored(m)
      <==> IsLastOfId(messages, m)
  {
    if messages != [] {
      var n := |messages| - 1;
      var rest := messages[..n];
      StoresTheLast(rest, m);
      if messages[n] == m {
        assert IsLastOfId(messages, m);
      } else if messages[n].id != m.id {
        if IsLastOfId(rest, m) {
          var i :| 0 <= i < n && rest[i] == m && forall j :: i < j < n ==> rest[j].id != m.id;
          assert messages[i] == m && forall j :: i < j < |messages| ==> messages[j].id != m.id;
        }
        if IsLastOfId(messages, m) {
          var i :| 0 <= i < |messages| && messages[i] == m && forall j :: i < j < |messages| ==> messages[j].id != m.id;
          assert rest[i] == m && forall j :: i < j < n ==> rest[j].id != m.id;
        }
      }
    }
  }

  /**
   * What a merge holds: of every id in the batch its last message; from before, the drafts whose client
   * id the batch does not have and the stored messages whose id it does not have; and its cursor is the
   * largest sequence of the old cursor and the batch.
   */
  lemma MergeHolds(t: Timeline, messages: seq<Message>)
    requires UniqueKeys(t.items)
    ensures forall x :: x in Merge(t, messages).items <==>
      || (x.Stored? && IsLastOfId(messages, x.message))
      || (x in t.items && forall m :: m in messages ==>
            (x.Optimistic? ==> m.client != x.client) && (x.Stored? ==> m.id != x.message.id))
    ensures
      var last := Merge(t, messages).lastSequence;
      && t.lastSequence <= last && (forall m :: m in messages ==> m.sequence <= last)
      && (last == t.lastSequence || exists m :: m in messages && m.sequence == last)
  {
    HighestIsLeast(t.lastSequence, messages);
    EntriesHolds(t.items);
    StoresIsKeyed(messages);
    var e := MergedEntries(Entries(t.items), messages);
    EntriesHolds(Arrange(e));
    hide Entries, Stores, Arrange, UniqueKeys, IsLastOfId;
    forall x ensures x in Merge(t, messages).items <==>
      || (x.Stored? && IsLastOfId(messages, x.message))
      || (x in t.items && forall m :: m in messages ==>
            (x.Optimistic? ==> m.client != x.client) && (x.Stored? ==> m.id != x.message.id))
    {
      assert x in Arrange(e) <==> x.Key() in e && e[x.Key()] == x;
      if x.Stored? {
        StoresTheLast(messages, x.message);
        StoredIds(messages, x.message.id);
      } else {
        assert x.client in ClientIds(messages) <==> exists m :: m in messages && m.client == x.client;
      }
    }
  }

  lemma {:induction false} StoredIds(messages: seq<Message>, id: MessageId)
    ensures OfMessage(id) in Stores(messages) <==> exists m :: m in messages && m.id == id
  {
    StoresIsKeyed(messages);
    if OfMessage(id) in Stores(messages) {
      assert Stores(messages)[OfMessage(id)].message in messages;
    }
  }

  lemma NewDraftEntries(items: seq<Item>, client: ClientId, sender: nat, text: string)
    requires UniqueKeys(items) && forall x :: x in items ==> x.ClientId() != client
    ensures
      var draft := Optimistic(client, sender, false, text);
      UniqueKeys(items + [draft]) && Entries(SortTimeline(items + [draft])) == Entries(items)[OfDraft(client) := draft]
  {
    var more := items + [Optimistic(client, sender, false, text)];
    forall i | 0 <= i < |items| ensures items[i].Key() != OfDraft(client) { assert items[i] in items; }
    assert UniqueKeys(more);
    SortTimelineKeepsEntries(more);
    assert more[..|items|] == items;
  }

  lemma MergeIsTidy(t: Timeline, messages: seq<Message>)
    requires Tidy(t)
    ensures Tidy(Merge(t, messages)) && Merge(t, messages).lastSequence >= t.lastSequence
  {
    EntriesHolds(t.items);
    StoresIsKeyed(messages);
    var e := MergedEntries(Entries(t.items), messages);
    var items := Arrange(e);
    EntriesHolds(items);
    hide Entries, Stores, Arrange, SortTimeline;
    forall x | x in items ensures
        && (x in t.items || (x.Stored? && x.message in messages))
        && (x.Optimistic? ==> x in t.items && x.client !in ClientIds(messages)) {
      assert e[x.Key()] == x;
    }
  }

  lemma BoundIsTidy(t: Timeline)
    requires Tidy(t)
    ensures Tidy(BoundedTimeline(t)) && |BoundedTimeline(t).items| <= MAXIMUM_RENDERED_ITEMS
    ensures forall x, y :: x in t.items && x !in BoundedTimeline(t).items && y in BoundedTimeline(t).items ==>
      Before(x, y)
    ensures BoundedTimeline(t).lastSequence == t.lastSequence
    ensures |BoundedTimeline(t).items| == Min(|t.items|, 400)
      && BoundedTimeline(t).items == t.items[|t.items| - Min(|t.items|, 400)..]
  {
    var n := |t.items| - MAXIMUM_RENDERED_ITEMS;
    if n > 0 { assert forall x :: x in t.items[n..] ==> x in t.items; }
  }

  lemma DoIsTidy(t: Timeline, act: Act)
    requires Tidy(t)
    ensures Tidy(Do(t, act)) && Do(t, act).lastSequence >= t.lastSequence
  {
    match act
    case Enqueue(client, sender, text) =>
      if exists x :: x in t.items && x.ClientId() == client { RestatusIsTidy(t, client, false); }
      else { EnqueueIsTidy(t, client, sender, text); }
    case Fail(client) => RestatusIsTidy(t, client, true);
    case MergeBatch(messages) => MergeIsTidy(t, messages);
    case Bound => BoundIsTidy(t);
  }

  /**
   * Whatever the client does, its timeline stays sorted with unique ids, holds no client id both as
   * a draft and stored, and its cursor covers every stored message and never falls.
   */
  lemma {:induction false} TimelinesAreTidy(t: Timeline, acts: seq<Act>)
    requires Tidy(t)
    ensures Tidy(DoAll(t, acts)) && DoAll(t, acts).lastSequence >= t.lastSequence
    decreases acts
  {
    hide Do, Tidy;
    if acts != [] {
      DoIsTidy(t, acts[0]);
      TimelinesAreTidy(Do(t, acts[0]), acts[1..]);
    }
  }

  /** How a tidy timeline reads: stored messages by sequence, then id; after them the drafts by client id. */
  lemma TidyReadsInOrder(t: Timeline, i: nat, j: nat)
    requires Tidy(t) && i < j < |t.items|
    ensures t.items[i].Optimistic? ==> t.items[j].Optimistic? && t.items[i].client < t.items[j].client
    ensures t.items[i].Stored? && t.items[j].Stored? ==>
      var m, n := t.items[i].message, t.items[j].message;
      m.id != n.id && (m.sequence < n.sequence || (m.sequence == n.sequence && m.id < n.id))
  {
    assert Before(t.items[i], t.items[j]);
  }
}
