/** The realtime gateway of one API instance and the relay that feeds it, one call at a time. */
module Gateway {
  import opened Collections
  import opened OutboxRows
  import M = Messages

  type SocketId = nat

  /** What the membership query says; Unknown is the repository being unavailable. */
  datatype Membership = Member | NotMember | Unknown

  /** Who is connected, who has joined which chat's room, and what has been emitted so far. */
  datatype Local = Local(connected: set<SocketId>, joined: set<(SocketId, Chat)>, emitted: seq<(SocketId, Event)>)

  /** Disconnecting takes the socket out of every room. */
  function Evict(g: Local, x: SocketId): Local {
    Local(g.connected - {x}, (set pair: (SocketId, Chat) | pair in g.joined && pair.0 != x), g.emitted)
  }

  function Emit(g: Local, x: SocketId, event: Event): Local {
    g.(emitted := g.emitted + [(x, event)])
  }

  type Authentic = SocketId -> bool
  type MemberOf = SocketId -> Membership

  function Deliver(
      g: Local, event: Event, sockets: seq<SocketId>, authentic: Authentic, member: MemberOf): (Local, bool)
    decreases sockets
  {
    if sockets == [] then (g, true)
    else
      var x := sockets[0];
      if authentic(x) && member(x).Unknown? then (g, false)
      else Deliver(if authentic(x) && member(x).Member? then Emit(g, x, event)
        else Evict(g, x), event, sockets[1..], authentic, member)
  }

  /** The sockets that are entitled to the event, in order. */
  function Entitled(sockets: seq<SocketId>, authentic: Authentic, member: MemberOf): seq<SocketId> {
    if sockets == [] then []
    else (if authentic(sockets[0]) && member(sockets[0]).Member? then [sockets[0]] else [])
         + Entitled(sockets[1..], authentic, member)
  }

  function Emissions(sockets: seq<SocketId>, event: Event): seq<(SocketId, Event)> {
    seq(|sockets|, i requires 0 <= i < |sockets| => (sockets[i], event))
  }

  /** The session check says yes and the query cannot tell. */
  predicate Undecided(x: SocketId, authentic: Authentic, member: MemberOf) {
    authentic(x) && member(x) == Unknown
  }

  /** The sockets that fail a check. */
  function Barred(sockets: seq<SocketId>, authentic: Authentic, member: MemberOf): set<SocketId> {
    set x | x in sockets && !(authentic(x) && member(x) == Member)
  }

  /**
   * The first `n` sockets were dealt with and no others: those entitled were sent the event, in order,
   * and stay connected and in all their rooms; those barred are disconnected and in no room.
   */
  ghost predicate Served(
      g: Local, t: Local, event: Event, sockets: seq<SocketId>, n: nat, authentic: Authentic, member: MemberOf)
    requires n <= |sockets|
  {
    var barred := Barred(sockets[..n], authentic, member);
    && t.emitted == g.emitted + Emissions(Entitled(sockets[..n], authentic, member), event)
    && (forall x :: x in t.connected <==> x in g.connected && x !in barred)
    && (forall x, chat :: (x, chat) in t.joined <==> (x, chat) in g.joined && x !in barred)
  }

  lemma {:induction false} DeliveryServes(
      g: Local, event: Event, sockets: seq<SocketId>, authentic: Authentic, member: MemberOf) returns (n: nat)
    ensures n <= |sockets|
    ensures
      var r := Deliver(g, event, sockets, authentic, member);
      && Served(g, r.0, event, sockets, n, authentic, member)
      && (r.1 <==> n == |sockets|)
      && (forall i :: 0 <= i < n ==> !Undecided(sockets[i], authentic, member))
      && (n < |sockets| ==> Undecided(sockets[n], authentic, member))
    decreases sockets
  {
    if sockets == [] || Undecided(sockets[0], authentic, member) {
      n := 0;
      assert Emissions([], event) == [] && sockets[..0] == [];
    } else {
      var x, rest := sockets[0], sockets[1..];
      var next := if authentic(x) && member(x).Member? then Emit(g, x, event) else Evict(g, x);
      var k := DeliveryServes(next, event, rest, authentic, member);
      n := k + 1;
      ServedMore(g, Deliver(next, event, rest, authentic, member).0, event, sockets, k, authentic, member);
    }
  }

  lemma ServedMore(
      g: Local, t: Local, event: Event, sockets: seq<SocketId>, k: nat, authentic: Authentic, member: MemberOf)
    requires sockets != [] && k <= |sockets| - 1
    requires
      var x := sockets[0];
      var next := if authentic(x) && member(x).Member? then Emit(g, x, event) else Evict(g, x);
      Served(next, t, event, sockets[1..], k, authentic, member)
    ensures Served(g, t, event, sockets, k + 1, authentic, member)
  {
    var x, later := sockets[0], sockets[1..][..k];
    assert sockets[..k + 1] == [x] + later;
    assert forall y :: y in sockets[..k + 1] <==> y == x || y in later;
    var entitled := Entitled(later, authentic, member);
    assert ([x] + later)[1..] == later;
    if authentic(x) && member(x).Member? {
      assert Emissions([x] + entitled, event) == [(x, event)] + Emissions(entitled, event);
    } else {
      assert [] + entitled == entitled;
    }
  }

  /**
   * Local delivery succeeds exactly when membership could be decided for every authentic socket;
   * then every socket found in the room was either sent the event, in order, and left where it was,
   * or disconnected and taken out of all rooms, and no other socket was touched.
   */
  lemma DeliveryReachesEveryone(
      g: Local, event: Event, sockets: seq<SocketId>, authentic: Authentic, member: MemberOf)
    ensures
      var r := Deliver(g, event, sockets, authentic, member);
      && (r.1 <==> forall x :: x in sockets ==> !(authentic(x) && member(x).Unknown?))
      && (r.1 ==>
            && r.0.emitted == g.emitted + Emissions(Entitled(sockets, authentic, member), event)
            && r.0.connected == g.connected - (set x | x in sockets && !(authentic(x) && member(x).Member?))
            && r.0.joined == (set pair: (SocketId, Chat) | pair in g.joined
                                && !(pair.0 in sockets && !(authentic(pair.0) && member(pair.0).Member?)))
            && Served(g, r.0, event, sockets, |sockets|, authentic, member))
  {
    var n := DeliveryServes(g, event, sockets, authentic, member);
    assert sockets[..|sockets|] == sockets;
    if n < |sockets| { assert sockets[n] in sockets; }
    var r := Deliver(g, event, sockets, authentic, member);
    hide Deliver, Entitled, Emissions;
    if r.1 {
      var barred := Barred(sockets, authentic, member);
      assert r.0.joined == (set pair: (SocketId, Chat) | pair in g.joined && pair.0 !in barred) by {
        forall pair: (SocketId, Chat) ensures pair in r.0.joined <==> pair in g.joined && pair.0 !in barred {
          assert pair == (pair.0, pair.1);
        }
      }
    }
  }

  /**
   * A delivery that fails stops at the first socket that cannot be decided: those before it are
   * served, it and all after it are untouched.
   */
  lemma FailedDeliveryStops(
      g: Local, event: Event, sockets: seq<SocketId>, authentic: Authentic, member: MemberOf)
    requires forall i, j :: 0 <= i < j < |sockets| ==> sockets[i] != sockets[j]
    requires !Deliver(g, event, sockets, authentic, member).1
    ensures
      var t := Deliver(g, event, sockets, authentic, member).0;
      exists n ::
        && 0 <= n < |sockets| && Undecided(sockets[n], authentic, member)
        && (forall i :: 0 <= i < n ==> !Undecided(sockets[i], authentic, member))
        && Served(g, t, event, sockets, n, authentic, member)
        && forall i :: n <= i < |sockets| ==>
             && (sockets[i] in t.connected <==> sockets[i] in g.connected)
             && (forall chat :: (sockets[i], chat) in t.joined <==> (sockets[i], chat) in g.joined)
  {
    var n := DeliveryServes(g, event, sockets, authentic, member);
    hide Deliver, Entitled, Emissions;
    forall i | n <= i < |sockets| ensures sockets[i] !in Barred(sockets[..n], authentic, member) {
    }
  }

  /**
   * Who is sent the event depends on each socket alone and keeps the room's order: of any two stretches
   * those of the first and then those of the second, of one socket itself exactly if it passes.
   */
  lemma {:induction false} EntitledOneByOne(
      a: seq<SocketId>, x: SocketId, b: seq<SocketId>, authentic: Authentic, member: MemberOf)
    ensures Entitled(a + [x] + b, authentic, member) ==
      Entitled(a, authentic, member) + (if authentic(x) && member(x) == Member then [x] else [])
        + Entitled(b, authentic, member)
    ensures Entitled([], authentic, member) == []
    decreases a
  {
    var all := a + [x] + b;
    if a == [] {
      assert all == [x] + b && all[1..] == b;
    } else {
      assert all[0] == a[0] && all[1..] == a[1..] + [x] + b;
      EntitledOneByOne(a[1..], x, b, authentic, member);
    }
  }

  datatype SubscribeRequest = SubscribeRequest(chat: Chat, after: nat)

  datatype SubscribeResult = SubscribeResult(joined: bool, history: seq<M.Message>, nextAfter: nat)

  class RealtimeGateway {
    var state: Local

    /**
     * `found` is what the adapter returns for the room, or None when it fails; the two oracles
     * answer for each socket in turn.
     */
    method DeliverLocal(value: Raw, found: Option<seq<SocketId>>, authentic: Authentic, member: MemberOf)
      returns (delivered: bool)
      modifies this
      ensures (value.Unreadable? || found.None?) ==> !delivered && state == old(state)
      ensures value.Readable? && found.Some? ==>
        (state, delivered) == Deliver(old(state), value.event, found.value, authentic, member)
      ensures delivered ==>
        Served(old(state), state, value.event, found.value, |found.value|, authentic, member)
    {
      if found.Some? && value.Readable? {
        DeliveryReachesEveryone(state, value.event, found.value, authentic, member);
      }
      if value.Unreadable? || found.None? { return false; }
      var event, fetched := value.event, found.value;
      for i := 0 to |fetched|
        invariant Deliver(old(state), event, fetched, authentic, member)
          == Deliver(state, event, fetched[i..], authentic, member)
      {
        var x := fetched[i];
        var principal := authentic(x);
        if principal {
          var answer := member(x);
          if answer.Unknown? { return false; }
          if answer.Member? {
            state := Emit(state, x, event);
            continue;
          }
        }
        state := Evict(state, x);
      }
      delivered := true;
    }

    /**
     * `serverCount` is the number of live instances, None when it cannot be had; `responses` are
     * the peers' acknowledgements, None when they did not all come in time.
     */
    method EmitMessageCreated(
        value: Raw, found: Option<seq<SocketId>>, authentic: Authentic, member: MemberOf,
        serverCount: Option<nat>, responses: Option<seq<bool>>)
      returns (accepted: bool)
      modifies this
      ensures accepted <==>
        && value.Readable? && found.Some?
        && (forall x :: x in found.value ==> !(authentic(x) && member(x).Unknown?))
        && serverCount.Some?
        && (serverCount.value <= 1 || (responses.Some? && responses.value != [] && false !in responses.value))
      ensures value.Readable? && found.Some? ==>
        state == Deliver(old(state), value.event, found.value, authentic, member).0
      ensures accepted ==>
        Served(old(state), state, value.event, found.value, |found.value|, authentic, member)
      ensures (value.Unreadable? || found.None?) ==> state == old(state)
    {
      if value.Unreadable? { return false; }
      if found.Some? { DeliveryReachesEveryone(state, value.event, found.value, authentic, member); }
      var delivered := DeliverLocal(value, found, authentic, member);
      if !delivered || serverCount.None? { return false; }
      if serverCount.value <= 1 { return true; }
      if responses.None? { return false; }
      accepted := |responses.value| > 0 && forall b :: b in responses.value ==> b;
    }

    /**
     * The socket enters the room before the history is read; every failure after that takes it out
     * again. `history` is what the repository answers, None when it refuses or fails.
     */
    method Subscribe(
        x: SocketId, request: Option<SubscribeRequest>, authentic: bool, joins: bool,
        history: Option<seq<M.Message>>, stillAuthentic: bool)
      returns (r: SubscribeResult)
      modifies this
      ensures r.joined <==> request.Some? && authentic && joins && history.Some? && stillAuthentic
      ensures r.history == (if r.joined then history.value else [])
      ensures r.nextAfter == M.LastSequence(r.history, if request.Some? then request.value.after else 0)
      ensures request.None? ==> state == old(state)
      ensures state.emitted == old(state).emitted
      ensures r.joined ==>
        state.connected == old(state).connected && state.joined == old(state).joined + {(x, request.value.chat)}
      ensures request.Some? && (!authentic || (joins && history.Some? && !stillAuthentic)) ==>
        && state.connected == old(state).connected - {x}
        && forall y, chat :: (y, chat) in state.joined <==> (y, chat) in old(state).joined && y != x
      ensures request.Some? && authentic && (!joins || history.None?) ==>
        && state.connected == old(state).connected
        && state.joined == old(state).joined - {(x, request.value.chat)}
    {
      if request.None? { return SubscribeResult(false, [], 0); }
      var rejected := SubscribeResult(false, [], request.value.after);
      var pair := (x, request.value.chat);
      if !authentic {
        state := Evict(state, x);
        return rejected;
      }
      if joins {
        state := state.(joined := state.joined + {pair});
        if history.Some? {
          if stillAuthentic {
            return SubscribeResult(true, history.value, M.LastSequence(history.value, request.value.after));
          }
          state := state.(joined := state.joined - {pair});
          state := Evict(state, x);
          return rejected;
        }
      }
      state := state.(joined := state.joined - {pair});
      r := rejected;
    }
  }

  datatype Entry = Entry(id: nat, value: Raw)

  /** What one round acknowledges: entries in order, up to the first acknowledgement that fails. */
  function Acknowledges(
      acked: set<nat>, entries: seq<Entry>, deliver: Event -> bool, ackWorks: nat -> bool): (set<nat>, bool)
    decreases entries
  {
    if entries == [] then (acked, true)
    else
      var settled := entries[0].value.Unreadable? || deliver(entries[0].value.event);
      if settled && !ackWorks(entries[0].id) then (acked, false)
      else Acknowledges(if settled then acked + {entries[0].id} else acked, entries[1..], deliver, ackWorks)
  }

  /** Only entries that are unreadable or were delivered are ever acknowledged; without failures, all of them. */
  lemma {:induction false} AcknowledgesOnlySettled(
      acked: set<nat>, entries: seq<Entry>, deliver: Event -> bool, ackWorks: nat -> bool)
    ensures
      var r := Acknowledges(acked, entries, deliver, ackWorks);
      var settled := set i | 0 <= i < |entries| && (entries[i].value.Unreadable? || deliver(entries[i].value.event)) ::
        entries[i].id;
      && acked <= r.0 <= acked + settled
      && (r.1 ==> r.0 == acked + settled)
      && (r.1 <==> forall id :: id in settled ==> ackWorks(id))
    decreases entries
  {
    if entries != [] {
      var rest := entries[1..];
      var first := entries[0].value.Unreadable? || deliver(entries[0].value.event);
      var settled := set i | 0 <= i < |entries| && (entries[i].value.Unreadable? || deliver(entries[i].value.event)) ::
        entries[i].id;
      var later := set i | 0 <= i < |rest| && (rest[i].value.Unreadable? || deliver(rest[i].value.event)) :: rest[i].id;
      assert settled == later + (if first then {entries[0].id} else {}) by {
        forall id | id in settled ensures id in later + (if first then {entries[0].id} else {}) {
          var i :| 0 <= i < |entries| && (entries[i].value.Unreadable? || deliver(entries[i].value.event))
            && entries[i].id == id;
          assert i > 0 ==> rest[i - 1] == entries[i];
        }
        forall id | id in later ensures id in settled {
          var i :| 0 <= i < |rest| && (rest[i].value.Unreadable? || deliver(rest[i].value.event)) && rest[i].id == id;
          assert entries[i + 1] == rest[i];
        }
      }
      AcknowledgesOnlySettled(if first then acked + {entries[0].id} else acked, rest, deliver, ackWorks);
    }
  }

  /**
   * Entries are acknowledged in order, up to the first acknowledgement that fails: the settled ones
   * before it are acknowledged, and nothing from it on is.
   */
  lemma {:induction false} AcknowledgesInOrder(
      acked: set<nat>, entries: seq<Entry>, deliver: Event -> bool, ackWorks: nat -> bool) returns (n: nat)
    ensures n <= |entries|
    ensures
      var r := Acknowledges(acked, entries, deliver, ackWorks);
      && r.0 == acked + (set i | 0 <= i < n && (entries[i].value.Unreadable? || deliver(entries[i].value.event)) ::
           entries[i].id)
      && (r.1 <==> n == |entries|)
      && (n < |entries| ==>
            && (entries[n].value.Unreadable? || deliver(entries[n].value.event)) && !ackWorks(entries[n].id))
    decreases entries
  {
    n := 0;
    if entries != [] {
      var first := entries[0].value.Unreadable? || deliver(entries[0].value.event);
      if !(first && !ackWorks(entries[0].id)) {
        var rest := entries[1..];
        var k := AcknowledgesInOrder(if first then acked + {entries[0].id} else acked, rest, deliver, ackWorks);
        n := k + 1;
        assert forall i :: 0 <= i < k ==> entries[i + 1] == rest[i];
        var later := set i | 0 <= i < k && (rest[i].value.Unreadable? || deliver(rest[i].value.event)) :: rest[i].id;
        var all := set i | 0 <= i < n && (entries[i].value.Unreadable? || deliver(entries[i].value.event)) ::
          entries[i].id;
        forall id | id in all ensures id in later + (if first then {entries[0].id} else {}) {
          var i :| 0 <= i < n && (entries[i].value.Unreadable? || deliver(entries[i].value.event))
            && entries[i].id == id;
          assert i > 0 ==> entries[i] == rest[i - 1];
        }
        forall id | id in later ensures id in all {
          var i :| 0 <= i < k && (rest[i].value.Unreadable? || deliver(rest[i].value.event)) && rest[i].id == id;
          assert entries[i + 1] == rest[i];
        }
        assert all == later + (if first then {entries[0].id} else {});
      }
    }
  }

  datatype Round = Idle | Worked | Broken

  class RealtimeRelay {
    var groupReady: bool
    /** The entries the consumer group has acknowledged, which live on the server. */
    var acked: set<nat>

    /**
     * One round: reclaimed entries come first, new ones are read only when there are none. `group`
     * says whether the group exists afterwards; a broken command ends the round.
     */
    method RelayOnce(
        group: bool, reclaimed: seq<Entry>, unread: seq<Entry>, deliver: Event -> bool, ackWorks: nat -> bool)
      returns (r: Round)
      modifies this
      ensures groupReady == (old(groupReady) || group)
      ensures !groupReady ==> r == Broken && acked == old(acked)
      ensures groupReady ==>
        var entries := if reclaimed != [] then reclaimed else unread;
        && acked == Acknowledges(old(acked), entries, deliver, ackWorks).0
        && r == if entries == [] then Idle else if Acknowledges(old(acked), entries, deliver, ackWorks).1 then Worked
          else Broken
    {
      if !groupReady {
        if !group { return Broken; }
        groupReady := true;
      }
      var entries := if |reclaimed| > 0 then reclaimed else unread;
      if |entries| == 0 { return Idle; }
      for i := 0 to |entries|
        invariant groupReady
        invariant Acknowledges(old(acked), entries, deliver, ackWorks)
          == Acknowledges(acked, entries[i..], deliver, ackWorks)
      {
        var entry := entries[i];
        var settled := entry.value.Unreadable?;
        if !settled { settled := deliver(entry.value.event); }
        if settled {
          if !ackWorks(entry.id) { return Broken; }
          acked := acked + {entry.id};
        }
      }
      r := Worked;
    }
  }
}
