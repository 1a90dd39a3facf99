/** The two event de-duplicators, against a log that never forgets. */
module Deduplicators {
  import opened Collections
  import opened OutboxRows

  const MAXIMUM_SAFE_INTEGER: int := 9_007_199_254_740_991

  /** The last `n` elements. */
  function LastOf<K>(s: seq<K>, n: nat): (r: seq<K>)
    ensures |r| == Min(|s|, n)
  {
    if |s| <= n then s else s[|s| - n..]
  }

  /** The reference: every key ever accepted. A key is refused while it is among the last `capacity` of them. */
  function AcceptedKeys<K(==)>(keys: seq<K>, capacity: nat): seq<K> {
    if keys == [] then []
    else
      var before := AcceptedKeys(keys[..|keys| - 1], capacity);
      var key := keys[|keys| - 1];
      if key in LastOf(before, capacity) then before else before + [key]
  }

  /** What the reference answers to each key in turn. */
  function Answers<K(==)>(keys: seq<K>, capacity: nat): (r: seq<bool>)
    ensures |r| == |keys|
  {
    if keys == [] then []
    else
      var rest := keys[..|keys| - 1];
      Answers(rest, capacity) + [keys[|keys| - 1] !in LastOf(AcceptedKeys(rest, capacity), capacity)]
  }

  lemma InLast<K>(s: seq<K>, i: nat, n: nat)
    requires i < |s|
    ensures |s| - i <= n ==> s[i] in LastOf(s, n)
  {
    if |s| - i <= n && |s| > n { assert LastOf(s, n)[i - (|s| - n)] == s[i]; }
  }

  /** Between two accepts of one key lie at least `capacity` accepts of other keys. */
  lemma {:induction false} AcceptsAreSpaced<K>(keys: seq<K>, capacity: nat)
    ensures Spaced(AcceptedKeys(keys, capacity), capacity)
  {
    if keys != [] {
      var rest := keys[..|keys| - 1];
      AcceptsAreSpaced(rest, capacity);
      assert keys == rest + [keys[|keys| - 1]];
      SpacedStep(rest, keys[|keys| - 1], capacity);
    }
  }

  ghost predicate Spaced<K>(s: seq<K>, n: nat) {
    forall i, j :: 0 <= i < j < |s| && s[i] == s[j] ==> j - i > n
  }

  lemma SpacedStep<K>(keys: seq<K>, key: K, capacity: nat)
    requires Spaced(AcceptedKeys(keys, capacity), capacity)
    ensures Spaced(AcceptedKeys(keys + [key], capacity), capacity)
  {
    hide AcceptedKeys, LastOf;
    ReferenceStep(keys, key, capacity);
    var before := AcceptedKeys(keys, capacity);
    forall i | 0 <= i < |before| ensures |before| - i <= capacity ==> before[i] in LastOf(before, capacity) {
      InLast(before, i, capacity);
    }
  }

  lemma ReferenceStep<K>(keys: seq<K>, key: K, capacity: nat)
    ensures
      var before := AcceptedKeys(keys, capacity);
      && AcceptedKeys(keys + [key], capacity) == (if key in LastOf(before, capacity) then before else before + [key])
      && Answers(keys + [key], capacity) == Answers(keys, capacity) + [key !in LastOf(before, capacity)]
  {
    assert (keys + [key])[..|keys|] == keys;
  }

  /** How many of the first `n` were accepted. */
  function Accepts(answers: seq<bool>, n: nat): nat
    requires n <= |answers|
  {
    if n == 0 then 0 else Accepts(answers, n - 1) + if answers[n - 1] then 1 else 0
  }

  lemma {:induction false} AcceptsGrow(answers: seq<bool>, m: nat, n: nat)
    requires m <= n <= |answers|
    ensures Accepts(answers, m) <= Accepts(answers, n)
    ensures m < n && answers[m] ==> Accepts(answers, m) < Accepts(answers, n)
    decreases n
  {
    if m < n { AcceptsGrow(answers, m, n - 1); }
  }

  /** The accepted keys are those of the accepting positions, each at its place. */
  ghost predicate ListsAccepted<K(!new)>(accepted: seq<K>, keys: seq<K>, answers: seq<bool>, n: nat)
    requires n <= |keys| && n <= |answers|
  {
    && |accepted| == Accepts(answers, n)
    && (forall m :: 0 <= m < n && answers[m] ==>
          Accepts(answers, m) < |accepted| && accepted[Accepts(answers, m)] == keys[m])
    && (forall i :: 0 <= i < |accepted| ==> i < Accepts(answers, n) && accepted[i] == keys[TheAccept(answers, n, i)])
  }

  /** The position of the `i`th accept. */
  function TheAccept(answers: seq<bool>, n: nat, i: nat): (m: nat)
    requires n <= |answers| && i < Accepts(answers, n)
    ensures m < n && answers[m] && Accepts(answers, m) == i
  {
    if answers[n - 1] && Accepts(answers, n - 1) == i then n - 1 else TheAccept(answers, n - 1, i)
  }

  lemma {:induction false} AnswersOfPrefix<K>(keys: seq<K>, n: nat, capacity: nat)
    requires n <= |keys|
    ensures Answers(keys[..n], capacity) == Answers(keys, capacity)[..n]
    decreases |keys|
  {
    hide Answers, AcceptedKeys, LastOf;
    if n < |keys| {
      var rest := keys[..|keys| - 1];
      AnswersOfPrefix(rest, n, capacity);
      assert rest[..n] == keys[..n] && keys == rest + [keys[|keys| - 1]];
      ReferenceStep(rest, keys[|keys| - 1], capacity);
      assert Answers(keys, capacity)[..|rest|] == Answers(rest, capacity);
    } else {
      assert keys[..n] == keys;
    }
  }

  lemma AnswerAt<K>(keys: seq<K>, n: nat, capacity: nat)
    requires n < |keys|
    ensures Answers(keys, capacity)[n] == (keys[n] !in LastOf(AcceptedKeys(keys[..n], capacity), capacity))
    ensures AcceptedKeys(keys[..n + 1], capacity) ==
      AcceptedKeys(keys[..n], capacity) + if Answers(keys, capacity)[n] then [keys[n]] else []
  {
    hide AcceptedKeys, Answers, LastOf;
    assert keys[..n + 1] == keys[..n] + [keys[n]];
    ReferenceStep(keys[..n], keys[n], capacity);
    AnswersOfPrefix(keys, n + 1, capacity);
    assert Answers(keys[..n + 1], capacity)[n] == Answers(keys, capacity)[n];
  }

  lemma ListsOneMore<K(!new)>(accepted: seq<K>, keys: seq<K>, answers: seq<bool>, n: nat)
    requires n < |keys| && n < |answers| && ListsAccepted(accepted, keys, answers, n)
    ensures ListsAccepted(accepted + if answers[n] then [keys[n]] else [], keys, answers, n + 1)
  {
    var more := accepted + if answers[n] then [keys[n]] else [];
    forall m | 0 <= m < n + 1 && answers[m]
      ensures Accepts(answers, m) < |more| && more[Accepts(answers, m)] == keys[m]
    {
      AcceptsGrow(answers, m, n);
    }
    assert |more| == Accepts(answers, n + 1);
    forall i | 0 <= i < |more| ensures more[i] == keys[TheAccept(answers, n + 1, i)] {
      if i < |accepted| { assert accepted[i] == keys[TheAccept(answers, n, i)]; }
    }
    assert ListsAccepted(more, keys, answers, n + 1);
  }

  lemma {:induction false} AcceptedAreListed<K(!new)>(keys: seq<K>, n: nat, capacity: nat)
    requires n <= |keys|
    ensures ListsAccepted(AcceptedKeys(keys[..n], capacity), keys, Answers(keys, capacity), n)
  {
    hide AcceptedKeys, Answers, ListsAccepted;
    if n == 0 {
      assert keys[..0] == [];
      NothingListed(keys, Answers(keys, capacity), capacity);
    } else {
      AcceptedAreListed(keys, n - 1, capacity);
      AnswerAt(keys, n - 1, capacity);
      ListsOneMore(AcceptedKeys(keys[..n - 1], capacity), keys, Answers(keys, capacity), n - 1);
      assert AcceptedKeys(keys[..n - 1], capacity) + [] == AcceptedKeys(keys[..n - 1], capacity);
    }
  }

  lemma NothingListed<K(!new)>(keys: seq<K>, answers: seq<bool>, capacity: nat)
    requires |answers| == |keys|
    ensures ListsAccepted(AcceptedKeys([], capacity), keys, answers, 0)
  {
  }

  /** The key was accepted at `m`, and fewer than `capacity` keys have been accepted after that before `n`. */
  ghost predicate StillKnown<K>(keys: seq<K>, answers: seq<bool>, m: nat, n: nat, capacity: nat)
    requires m < n < |keys| && |answers| == |keys|
  {
    keys[m] == keys[n] && answers[m] && Accepts(answers, n) - Accepts(answers, m + 1) < capacity
  }

  /** A key is refused exactly when it was accepted before and fewer than `capacity` keys were since. */
  lemma RefusedExactlyWhen<K(!new)>(keys: seq<K>, n: nat, capacity: nat)
    requires n < |keys|
    ensures !Answers(keys, capacity)[n]
      <==> exists m :: 0 <= m < n && StillKnown(keys, Answers(keys, capacity), m, n, capacity)
  {
    var answers, accepted := Answers(keys, capacity), AcceptedKeys(keys[..n], capacity);
    AnswerAt(keys, n, capacity);
    AcceptedAreListed(keys, n, capacity);
    hide AcceptedKeys, Answers;
    if keys[n] in LastOf(accepted, capacity) { RecentIsKnown(accepted, keys, answers, n, capacity); }
    if m :| 0 <= m < n && StillKnown(keys, answers, m, n, capacity) {
      InLast(accepted, Accepts(answers, m), capacity);
    }
  }

  lemma RecentIsKnown<K(!new)>(accepted: seq<K>, keys: seq<K>, answers: seq<bool>, n: nat, capacity: nat)
    requires n < |keys| && |answers| == |keys| && ListsAccepted(accepted, keys, answers, n)
    requires keys[n] in LastOf(accepted, capacity)
    ensures exists m :: 0 <= m < n && StillKnown(keys, answers, m, n, capacity)
  {
    var recent := LastOf(accepted, capacity);
    var i :| 0 <= i < |recent| && recent[i] == keys[n];
    var place := |accepted| - |recent| + i;
    assert accepted[place] == keys[n];
    var m := TheAccept(answers, n, place);
    assert StillKnown(keys, answers, m, n, capacity);
  }

  // ---- The map-based version ----

  type Key = (EventId, MessageId)

  class RealtimeEventDeduplicator {
    const capacity: nat
    var seen: OrderedMap<Key, bool>
    /** All keys offered so far. */
    ghost var offered: seq<Key>

    ghost predicate Valid()
      reads this
    {
      && 1 <= capacity
      && seen.Valid()
      && seen.order == LastOf(AcceptedKeys(offered, capacity), capacity)
    }

    constructor (capacity: nat)
      requires 1 <= capacity <= MAXIMUM_SAFE_INTEGER
      ensures Valid() && this.capacity == capacity && offered == []
    {
      this.capacity := capacity;
      seen := OrderedMap([], map[]);
      offered := [];
    }

    method Accept(event: Event) returns (accepted: bool)
      requires Valid()
      modifies this
      ensures Valid() && offered == old(offered) + [(event.eventId, event.messageId)]
      ensures accepted == Answers(offered, capacity)[|old(offered)|]
    {
      hide AcceptedKeys, Answers, LastOf;
      var key := (event.eventId, event.messageId);
      ghost var before := AcceptedKeys(offered, capacity);
      ReferenceStep(offered, key, capacity);
      offered := offered + [key];
      if key in seen.entries {
        return false;
      }
      seen := seen.Set(key, true);
      if |seen.order| > capacity {
        seen := seen.DeleteFirst();
      }
      LastOfMore(before, key, capacity);
      accepted := true;
    }
  }

  lemma LastOfMore<K>(s: seq<K>, x: K, n: nat)
    requires n >= 1
    ensures LastOf(s + [x], n) == if |LastOf(s, n)| < n then LastOf(s, n) + [x] else LastOf(s, n)[1..] + [x]
  {
  }

  datatype Created = InvalidCapacity | Created(deduplicator: RealtimeEventDeduplicator)

  method CreateRealtimeEventDeduplicator(capacity: int) returns (r: Created)
    ensures r.Created? <==> 1 <= capacity <= MAXIMUM_SAFE_INTEGER
    ensures r.Created? ==>
      fresh(r.deduplicator) && r.deduplicator.Valid() && r.deduplicator.capacity == capacity
      && r.deduplicator.offered == []
  {
    if capacity < 1 || capacity > MAXIMUM_SAFE_INTEGER { return InvalidCapacity; }
    var deduplicator := new RealtimeEventDeduplicator(capacity);
    r := Created(deduplicator);
  }

  // ---- The list-based version ----

  /** JavaScript's one-argument slice: a negative start counts from the end, and minus zero is zero. */
  function Slice<K>(s: seq<K>, start: int): seq<K> {
    if start < 0 then s[Max(|s| + start, 0)..] else s[Min(start, |s|)..]
  }

  function AcceptRealtimeEvent(ids: seq<EventId>, eventId: EventId, capacity: int): (bool, seq<EventId>) {
    if eventId in ids then (false, ids) else (true, Slice(ids + [eventId], -capacity))
  }

  /** The list after a run of events, starting empty, and the answers along the way. */
  function AcceptAll(ids: seq<EventId>, capacity: int): (seq<bool>, seq<EventId>) {
    if ids == [] then ([], [])
    else
      var (answers, held) := AcceptAll(ids[..|ids| - 1], capacity);
      var (answer, next) := AcceptRealtimeEvent(held, ids[|ids| - 1], capacity);
      (answers + [answer], next)
  }

  /** The list has answered as the reference and holds exactly its last `capacity` keys. */
  ghost predicate ListFollows(ids: seq<EventId>, capacity: nat) {
    AcceptAll(ids, capacity) == (Answers(ids, capacity), LastOf(AcceptedKeys(ids, capacity), capacity))
  }

  lemma AcceptAllStep(ids: seq<EventId>, id: EventId, capacity: int)
    ensures
      var before := AcceptAll(ids, capacity);
      var after := AcceptRealtimeEvent(before.1, id, capacity);
      AcceptAll(ids + [id], capacity) == (before.0 + [after.0], after.1)
  {
    assert (ids + [id])[..|ids|] == ids;
  }

  lemma SliceIsLast(s: seq<EventId>, id: EventId, capacity: nat)
    requires capacity >= 1
    ensures
      var start: int := 0 - capacity;
      Slice(LastOf(s, capacity) + [id], start) == LastOf(s + [id], capacity)
  {
  }

  lemma ListStep(ids: seq<EventId>, id: EventId, capacity: nat)
    requires capacity >= 1 && ListFollows(ids, capacity)
    ensures ListFollows(ids + [id], capacity)
  {
    hide AcceptAll, AcceptedKeys, Answers, LastOf, Slice;
    ReferenceStep(ids, id, capacity);
    AcceptAllStep(ids, id, capacity);
    SliceIsLast(AcceptedKeys(ids, capacity), id, capacity);
  }

  lemma {:induction false} ListIsReference(ids: seq<EventId>, capacity: nat)
    requires capacity >= 1
    ensures ListFollows(ids, capacity)
  {
    hide ListFollows;
    if ids == [] {
      NothingFollows(capacity);
    } else {
      var rest := ids[..|ids| - 1];
      ListIsReference(rest, capacity);
      ListStep(rest, ids[|ids| - 1], capacity);
      assert ids == rest + [ids[|ids| - 1]];
    }
  }

  lemma NothingFollows(capacity: nat)
    ensures ListFollows([], capacity) && KeysFollowIds([], capacity)
  {
  }

  // ---- Agreement ----

  function Keys(events: seq<Event>): seq<Key> {
    seq(|events|, i requires 0 <= i < |events| => (events[i].eventId, events[i].messageId))
  }

  function Ids(events: seq<Event>): seq<EventId> {
    seq(|events|, i requires 0 <= i < |events| => events[i].eventId)
  }

  ghost predicate MessageDetermined(events: seq<Event>) {
    forall a, b :: a in events && b in events && a.eventId == b.eventId ==> a.messageId == b.messageId
  }

  function FirstOfEach(keys: seq<Key>): seq<EventId> {
    seq(|keys|, i requires 0 <= i < |keys| => keys[i].0)
  }

  lemma {:induction false} AcceptedAreOffered<K>(keys: seq<K>, capacity: nat)
    ensures forall k :: k in AcceptedKeys(keys, capacity) ==> k in keys
  {
    if keys != [] {
      AcceptedAreOffered(keys[..|keys| - 1], capacity);
      assert keys == keys[..|keys| - 1] + [keys[|keys| - 1]];
    }
  }

  ghost predicate KeysFollowIds(events: seq<Event>, capacity: nat) {
    && Answers(Keys(events), capacity) == Answers(Ids(events), capacity)
    && AcceptedKeys(Ids(events), capacity) == FirstOfEach(AcceptedKeys(Keys(events), capacity))
  }

  lemma KeysStep(events: seq<Event>, last: Event, capacity: nat)
    requires MessageDetermined(events + [last]) && KeysFollowIds(events, capacity)
    ensures KeysFollowIds(events + [last], capacity)
  {
    hide AcceptedKeys, Answers;
    var more := events + [last];
    assert Keys(more) == Keys(events) + [(last.eventId, last.messageId)] && Ids(more) == Ids(events) + [last.eventId];
    ReferenceStep(Keys(events), (last.eventId, last.messageId), capacity);
    ReferenceStep(Ids(events), last.eventId, capacity);
    AcceptedAreOffered(Keys(events), capacity);
    var recent := LastOf(AcceptedKeys(Keys(events), capacity), capacity);
    assert more[..|events|] == events;
    SameMembership(more, recent);
    assert FirstOfEach(recent) == LastOf(AcceptedKeys(Ids(events), capacity), capacity);
  }

  lemma {:induction false} KeysActLikeIds(events: seq<Event>, capacity: nat)
    requires MessageDetermined(events)
    ensures KeysFollowIds(events, capacity)
  {
    hide KeysFollowIds;
    if events == [] {
      NothingFollows(capacity);
    } else {
      var rest := events[..|events| - 1];
      KeysActLikeIds(rest, capacity);
      assert events == rest + [events[|events| - 1]];
      KeysStep(rest, events[|events| - 1], capacity);
    }
  }

  lemma SameMembership(events: seq<Event>, recent: seq<Key>)
    requires events != [] && MessageDetermined(events)
    requires forall k :: k in recent ==> k in Keys(events[..|events| - 1])
    ensures
      var last := events[|events| - 1];
      (last.eventId, last.messageId) in recent <==> last.eventId in FirstOfEach(recent)
  {
    var last := events[|events| - 1];
    if last.eventId in FirstOfEach(recent) {
      var i :| 0 <= i < |recent| && FirstOfEach(recent)[i] == last.eventId;
      assert recent[i] in recent;
      var j :| 0 <= j < |events| - 1 && Keys(events[..|events| - 1])[j] == recent[i];
      assert events[j] in events && last in events;
    }
    if (last.eventId, last.messageId) in recent {
      var i :| 0 <= i < |recent| && recent[i] == (last.eventId, last.messageId);
      assert FirstOfEach(recent)[i] == last.eventId;
    }
  }

  /**
   * With a capacity of at least one and events whose message follows from their id, both versions
   * answer every sequence of events alike.
   */
  lemma DeduplicatorsAgree(events: seq<Event>, capacity: nat)
    requires capacity >= 1 && MessageDetermined(events)
    ensures AcceptAll(Ids(events), capacity).0 == Answers(Keys(events), capacity)
  {
    ListIsReference(Ids(events), capacity);
    KeysActLikeIds(events, capacity);
  }

  /** Two events of one id with different messages are one event for the list and two for the map. */
  lemma UndeterminedMessagesDisagree(a: Event, b: Event, capacity: nat)
    requires a.eventId == b.eventId && a.messageId != b.messageId && capacity >= 1
    ensures AcceptAll(Ids([a, b]), capacity).0 == [true, false] && Answers(Keys([a, b]), capacity) == [true, true]
  {
    hide Answers, AcceptedKeys, AcceptAll;
    ListIsReference(Ids([a, b]), capacity);
    assert Ids([a, b]) == [a.eventId, b.eventId];
    assert Keys([a, b]) == [(a.eventId, a.messageId), (b.eventId, b.messageId)];
    AnswersOfTwo(a.eventId, b.eventId, capacity);
    AnswersOfTwo((a.eventId, a.messageId), (b.eventId, b.messageId), capacity);
  }

  ghost predicate Over(events: seq<Event>, possible: iset<Event>) {
    forall e :: e in events ==> e in possible
  }

  /** Among the possible events the message follows from the id. */
  ghost predicate IdsDetermineMessages(possible: iset<Event>) {
    forall a, b :: a in possible && b in possible && a.eventId == b.eventId ==> a.messageId == b.messageId
  }

  /** Both versions answer every sequence of possible events alike exactly when the message follows from the id. */
  lemma AgreementIsDetermination(possible: iset<Event>, capacity: nat)
    requires capacity >= 1
    ensures (forall events :: Over(events, possible) ==>
      AcceptAll(Ids(events), capacity).0 == Answers(Keys(events), capacity))
      <==> IdsDetermineMessages(possible)
  {
    if IdsDetermineMessages(possible) {
      forall events | Over(events, possible)
        ensures AcceptAll(Ids(events), capacity).0 == Answers(Keys(events), capacity) {
        DeduplicatorsAgree(events, capacity);
      }
    } else {
      var a, b :| a in possible && b in possible && a.eventId == b.eventId && a.messageId != b.messageId;
      UndeterminedMessagesDisagree(a, b, capacity);
      assert Over([a, b], possible);
      assert [true, false] != [true, true] by { assert [true, false][1] != [true, true][1]; }
    }
  }

  lemma AnswersOfTwo<K>(a: K, b: K, capacity: nat)
    requires capacity >= 1
    ensures Answers([a, b], capacity) == [true, a != b]
  {
    assert [a, b][..1] == [a] && [a][..0] == [];
    assert Answers([a], capacity) == [true] && AcceptedKeys([a], capacity) == [a];
  }

  /** With capacity zero, which only the list admits, it forgets nothing. */
  lemma {:induction false} CapacityZeroNeverForgets(ids: seq<EventId>)
    ensures forall id :: id in AcceptAll(ids, 0).1 <==> id in ids
  {
    if ids != [] {
      CapacityZeroNeverForgets(ids[..|ids| - 1]);
      assert ids == ids[..|ids| - 1] + [ids[|ids| - 1]];
    }
  }
}
