/**
 * What the delivery system can still do from every state it reaches: an entry of a chat can be
 * delivered to whoever is entitled to it, and acknowledged.
 */
module DeliveryProgress {
  import opened Collections
  import opened OutboxRows
  import opened Gateway
  import opened DeliveryLoop
  import D = DeliveryRuns

  // ---- One instance alone ----

  lemma DeliveryStep(d: D.State, m: D.Move, moves: seq<D.Move>)
    ensures D.Run(d, [m] + moves) == D.Run(D.Next(d, m), moves)
  {
    hide D.Next;
    assert ([m] + moves)[1..] == moves;
  }

  lemma DeliveryNothing(d: D.State)
    ensures D.Run(d, []) == d
  {
  }

  /** Crashing instances and disconnecting sockets. */
  predicate Clears(m: D.Move) {
    m.ByWorld? && (m.world.CrashApi? || m.world.Disconnect?)
  }

  ghost predicate AllClear(moves: seq<D.Move>) {
    forall i :: 0 <= i < |moves| ==> Clears(moves[i])
  }

  /** One instance is left, and the socket alone is connected to it. */
  ghost predicate Alone(w: D.World, x: SocketId, api: D.ApiId) {
    w.live == {api} && w.connected == map[x := api]
  }

  lemma CrashOther(d: D.State, x: SocketId, api: D.ApiId, other: D.ApiId)
    requires D.WorldOk(d.world) && x in d.world.connected && d.world.connected[x] == api
    requires other in d.world.live && other != api
    ensures
      var t := D.Next(d, D.ByWorld(D.CrashApi(other)));
      && t == d.(world := t.world) && D.WorldOk(t.world)
      && x in t.world.connected && t.world.connected[x] == api
      && t.world.live == d.world.live - {other} && t.world.connected.Keys <= d.world.connected.Keys
      && t.world.joined == d.world.joined
      && t.world.sessions == d.world.sessions && t.world.members == d.world.members
  {
  }

  lemma DisconnectOther(d: D.State, x: SocketId, api: D.ApiId, other: SocketId)
    requires D.WorldOk(d.world) && x in d.world.connected && d.world.connected[x] == api
    requires other in d.world.connected && other != x
    ensures
      var t := D.Next(d, D.ByWorld(D.Disconnect(other)));
      && t == d.(world := t.world) && D.WorldOk(t.world)
      && x in t.world.connected && t.world.connected[x] == api
      && t.world.live == d.world.live && t.world.connected.Keys == d.world.connected.Keys - {other}
      && t.world.joined == d.world.joined
      && t.world.sessions == d.world.sessions && t.world.members == d.world.members
  {
  }

  lemma FewerKeys<T(!new)>(a: set<T>, b: set<T>)
    requires a <= b
    ensures |a| <= |b| && (a != b ==> |a| < |b|)
  {
    assert b == a + (b - a);
  }

  lemma {:induction false} Clearing(d: D.State, x: SocketId, api: D.ApiId) returns (moves: seq<D.Move>)
    requires D.WorldOk(d.world) && x in d.world.connected && d.world.connected[x] == api
    ensures AllClear(moves)
    ensures
      var t := D.Run(d, moves);
      && t == d.(world := t.world) && Alone(t.world, x, api) && t.world.joined == d.world.joined
      && t.world.sessions == d.world.sessions && t.world.members == d.world.members
    decreases |d.world.live| + |d.world.connected.Keys|
  {
    hide D.Next, D.Run;
    var m: D.Move;
    if other :| other in d.world.live && other != api {
      m := D.ByWorld(D.CrashApi(other));
      CrashOther(d, x, api, other);
    } else if other :| other in d.world.connected && other != x {
      m := D.ByWorld(D.Disconnect(other));
      DisconnectOther(d, x, api, other);
    } else {
      moves := [];
      DeliveryNothing(d);
      assert D.WorldOk(d.world) && api in d.world.live;
      assert d.world.live == {api};
      assert d.world.connected == map[x := api];
      return;
    }
    var t := D.Next(d, m);
    FewerKeys(t.world.live, d.world.live);
    FewerKeys(t.world.connected.Keys, d.world.connected.Keys);
    var rest := Clearing(t, x, api);
    moves := [m] + rest;
    DeliveryStep(d, m, rest);
  }

  /** A new call has sent the event to nobody, and the others are as they were. */
  ghost predicate OnlyNewCalls(before: map<D.CallId, D.Call>, after: map<D.CallId, D.Call>) {
    forall c :: c in after ==> (c in before && after[c] == before[c]) || after[c].sent == {}
  }

  function ByCalls(c: D.CallId, moves: seq<D.CallMove>): seq<D.Move> {
    seq(|moves|, i requires 0 <= i < |moves| => D.ByCall(c, moves[i]))
  }

  /** The entry is read, posted to the one instance, delivered there by these moves, counted, and acknowledged. */
  function Script(
      r: D.RelayId, q: D.RequestId, c: D.CallId, api: D.ApiId, i: nat, delivery: seq<D.CallMove>): seq<D.Move> {
    [D.ByRelay(D.Read(r, [i]))] + ([D.ByRelay(D.Post(r, q, c, api))]
      + (ByCalls(c, delivery) + ([D.ByRequest(q, D.Count)] + ([D.ByRelay(D.Settle(r))] + []))))
  }

  lemma {:induction false} DeliveryJoined(d: D.State, a: seq<D.Move>, b: seq<D.Move>)
    ensures D.Run(d, a + b) == D.Run(D.Run(d, a), b)
    decreases a
  {
    hide D.Next;
    if a == [] {
      assert a + b == b;
    } else {
      assert (a + b)[1..] == a[1..] + b;
      DeliveryJoined(D.Next(d, a[0]), a[1..], b);
    }
  }

  lemma ScriptRuns(
      d: D.State, r: D.RelayId, q: D.RequestId, c: D.CallId, api: D.ApiId, i: nat, delivery: seq<D.CallMove>)
    ensures
      var posted := D.Next(D.Next(d, D.ByRelay(D.Read(r, [i]))), D.ByRelay(D.Post(r, q, c, api)));
      var completed := D.Run(posted, ByCalls(c, delivery));
      D.Run(d, Script(r, q, c, api, i, delivery))
        == D.Next(D.Next(completed, D.ByRequest(q, D.Count)), D.ByRelay(D.Settle(r)))
  {
    hide D.Next, D.Run;
    var d1 := D.Next(d, D.ByRelay(D.Read(r, [i])));
    var d2 := D.Next(d1, D.ByRelay(D.Post(r, q, c, api)));
    var d3 := D.Run(d2, ByCalls(c, delivery));
    var d4 := D.Next(d3, D.ByRequest(q, D.Count));
    var last := [D.ByRelay(D.Settle(r))] + [];
    var counting := [D.ByRequest(q, D.Count)] + last;
    var delivering := ByCalls(c, delivery) + counting;
    DeliveryStep(d, D.ByRelay(D.Read(r, [i])), [D.ByRelay(D.Post(r, q, c, api))] + delivering);
    DeliveryStep(d1, D.ByRelay(D.Post(r, q, c, api)), delivering);
    DeliveryJoined(d2, ByCalls(c, delivery), counting);
    DeliveryStep(d3, D.ByRequest(q, D.Count), last);
    DeliveryStep(d4, D.ByRelay(D.Settle(r)), []);
    DeliveryNothing(D.Next(d4, D.ByRelay(D.Settle(r))));
  }

  /** Read and posted: one relay, one request and one call more. */
  lemma Posted(d: D.State, r: D.RelayId, q: D.RequestId, c: D.CallId, api: D.ApiId, i: nat)
    requires r !in d.relays && q !in d.requests && c !in d.calls && api in d.world.live
    requires i < |d.stream| && d.stream[i].Readable?
    ensures
      var e := d.stream[i].event;
      D.Next(D.Next(d, D.ByRelay(D.Read(r, [i]))), D.ByRelay(D.Post(r, q, c, api)))
        == d.(relays := d.relays[r := D.Relay([i], Some(q))], calls := d.calls[c := D.NewCall(e, api)],
              requests := d.requests[q := D.Request(i, e, api, c, D.Delivering, None, {}, {}, map[])])
  {
    var read := D.Next(d, D.ByRelay(D.Read(r, [i])));
    assert read == d.(relays := d.relays[r := D.Relay([i], None)]);
    assert read.relays[r := D.Relay([i], Some(q))] == d.relays[r := D.Relay([i], Some(q))];
  }

  /** Moves of one call that disconnect nobody are moves of its record alone. */
  lemma {:induction false} CallsRun(d: D.State, c: D.CallId, delivery: seq<D.CallMove>)
    requires c in d.calls && HandleAll(d.world, d.calls[c], delivery).evicted == d.calls[c].evicted
    requires NobodyEvicted(d.world, d.calls[c], delivery)
    ensures D.Run(d, ByCalls(c, delivery)) == d.(calls := d.calls[c := HandleAll(d.world, d.calls[c], delivery)])
    decreases delivery
  {
    hide D.Handled;
    if delivery == [] {
      assert d.calls[c := d.calls[c]] == d.calls;
    } else {
      var m := delivery[0];
      var call := D.Handled(d.world, d.calls[c], m);
      var next := D.Next(d, D.ByCall(c, m));
      NobodyIsDropped(d.world);
      assert call.evicted - d.calls[c].evicted == {};
      assert next == d.(calls := d.calls[c := call]);
      assert ByCalls(c, delivery)[1..] == ByCalls(c, delivery[1..]);
      CallsRun(next, c, delivery[1..]);
      assert next.calls[c := HandleAll(d.world, call, delivery[1..])]
        == d.calls[c := HandleAll(d.world, call, delivery[1..])];
    }
  }

  ghost predicate NobodyEvicted(w: D.World, call: D.Call, delivery: seq<D.CallMove>)
    decreases delivery
  {
    delivery == [] ||
    (var next := D.Handled(w, call, delivery[0]);
     next.evicted == call.evicted && NobodyEvicted(w, next, delivery[1..]))
  }

  lemma NobodyIsDropped(w: D.World)
    ensures D.Drop(w, {}) == w
  {
    assert w.connected - {} == w.connected && w.gone + {} == w.gone;
  }

  /** The only instance accepts the event without asking anybody, and the relay acknowledges the entry. */
  lemma Settled(d: D.State, r: D.RelayId, q: D.RequestId, api: D.ApiId, i: nat)
    requires r in d.relays && d.relays[r] == D.Relay([i], Some(q)) && i < |d.stream| && d.world.live == {api}
    requires q in d.requests && d.requests[q].phase.Delivering? && d.requests[q].api == api
    requires D.IsComplete(d, d.requests[q].call)
    ensures
      var t := D.Next(D.Next(d, D.ByRequest(q, D.Count)), D.ByRelay(D.Settle(r)));
      i in t.acked && t.calls == d.calls && t.stream == d.stream && t.world == d.world
  {
    var counted := D.Next(d, D.ByRequest(q, D.Count));
    assert counted == d.(requests := d.requests[q := d.requests[q].(phase := D.Accepted)]);
  }

  /** An empty room: the delivery finds nobody and completes. */
  lemma EmptyRoomCompletes(w: D.World, event: Event, api: D.ApiId)
    requires api in w.live && D.RoomAt(w, api, event.chat) == {}
    ensures
      var call, delivery := D.NewCall(event, api), [D.Fetch([]), D.Finish];
      && NobodyEvicted(w, call, delivery)
      && HandleAll(w, call, delivery) == call.(found := Some({}), status := D.CallStatus.Completed)
  {
    hide D.RoomAt;
    var call := D.NewCall(event, api);
    var found := call.(found := Some({}));
    var done := found.(status := D.CallStatus.Completed);
    assert D.Lists([], {});
    assert D.Handled(w, call, D.Fetch([])) == found;
    assert D.Handled(w, found, D.Finish) == done;
    assert [D.Fetch([]), D.Finish][1..] == [D.Finish] && [D.Finish][1..] == [];
    HandleNothing(w, done);
    HandleStep(w, found, D.Finish, []);
    HandleStep(w, call, D.Fetch([]), [D.Finish]);
    assert [D.Finish] + [] == [D.Finish] && [D.Fetch([])] + [D.Finish] == [D.Fetch([]), D.Finish];
  }

  /** One socket alone in the room, with a live session and membership: it is checked and sent the event. */
  lemma OneSocketIsSent(w: D.World, event: Event, api: D.ApiId, x: SocketId)
    requires api in w.live && D.RoomAt(w, api, event.chat) == {x}
    requires x in w.sessions && (x, event.chat) in w.members
    ensures
      var call := D.NewCall(event, api);
      var delivery := [D.Fetch([x]), D.CheckSession(true), D.CheckMember(Member), D.Finish];
      && NobodyEvicted(w, call, delivery)
      && HandleAll(w, call, delivery)
         == call.(found := Some({x}), passed := {x}, sent := {x}, status := D.CallStatus.Completed)
  {
    hide D.RoomAt;
    var call := D.NewCall(event, api);
    var found := call.(found := Some({x}), todo := [x]);
    var passed := found.(passed := {x});
    var sent := passed.(todo := [], sent := {x});
    var done := sent.(status := D.CallStatus.Completed);
    assert D.Lists([x], {x});
    assert D.Handled(w, call, D.Fetch([x])) == found;
    assert D.Handled(w, found, D.CheckSession(true)) == passed;
    assert [x][1..] == [];
    assert D.Handled(w, passed, D.CheckMember(Member)) == sent;
    assert D.Handled(w, sent, D.Finish) == done;
    hide D.Handled;
    var third := [D.CheckMember(Member)] + ([D.Finish] + []);
    var second := [D.CheckSession(true)] + third;
    HandleNothing(w, done);
    HandleStep(w, sent, D.Finish, []);
    HandleStep(w, passed, D.CheckMember(Member), [D.Finish] + []);
    HandleStep(w, found, D.CheckSession(true), third);
    HandleStep(w, call, D.Fetch([x]), second);
    EvictsNobody(w, done, []);
    EvictsNobody(w, sent, [D.Finish] + []);
    EvictsNobody(w, passed, third);
    EvictsNobody(w, found, second);
    EvictsNobody(w, call, [D.Fetch([x])] + second);
    assert [D.Fetch([x])] + second == [D.Fetch([x]), D.CheckSession(true), D.CheckMember(Member), D.Finish];
  }

  lemma EvictsNobody(w: D.World, call: D.Call, delivery: seq<D.CallMove>)
    ensures NobodyEvicted(w, call, delivery) <==>
      delivery == []
      || (D.Handled(w, call, delivery[0]).evicted == call.evicted
          && NobodyEvicted(w, D.Handled(w, call, delivery[0]), delivery[1..]))
  {
  }

  /**
   * From any state with one live instance, an entry is delivered by these moves of a new call, which
   * disconnect nobody and complete it, and is acknowledged.
   */
  lemma DeliveredBy(d: D.State, api: D.ApiId, i: nat, delivery: seq<D.CallMove>)
    returns (moves: seq<D.Move>, c: D.CallId)
    requires d.world.live == {api} && i < |d.stream| && d.stream[i].Readable?
    requires
      var call := D.NewCall(d.stream[i].event, api);
      && NobodyEvicted(d.world, call, delivery)
      && HandleAll(d.world, call, delivery).evicted == {}
      && HandleAll(d.world, call, delivery).status.Completed?
    ensures forall j :: 0 <= j < |moves| ==> !moves[j].ByWorld? && !moves[j].Extend?
    ensures c !in d.calls
    ensures
      var t := D.Run(d, moves);
      && i in t.acked && t.stream == d.stream && t.world == d.world
      && t.calls == d.calls[c := HandleAll(d.world, D.NewCall(d.stream[i].event, api), delivery)]
  {
    hide D.Next, D.Run, HandleAll, NobodyEvicted, D.Handled;
    var e := d.stream[i].event;
    var r := NewId(d.relays.Keys);
    var q := NewId(d.requests.Keys);
    c := NewId(d.calls.Keys);
    moves := Script(r, q, c, api, i, delivery);
    ScriptRuns(d, r, q, c, api, i, delivery);
    Posted(d, r, q, c, api, i);
    var posted := D.Next(D.Next(d, D.ByRelay(D.Read(r, [i]))), D.ByRelay(D.Post(r, q, c, api)));
    CallsRun(posted, c, delivery);
    var completed := D.Run(posted, ByCalls(c, delivery));
    Settled(completed, r, q, api, i);
    assert d.calls[c := D.NewCall(e, api)][c := HandleAll(d.world, D.NewCall(e, api), delivery)]
      == d.calls[c := HandleAll(d.world, D.NewCall(e, api), delivery)];
  }

  lemma DeliveredUnseen(d: D.State, api: D.ApiId, i: nat) returns (moves: seq<D.Move>)
    requires d.world.live == {api} && i < |d.stream| && d.stream[i].Readable?
    requires D.RoomAt(d.world, api, d.stream[i].event.chat) == {}
    ensures forall j :: 0 <= j < |moves| ==> !moves[j].ByWorld? && !moves[j].Extend?
    ensures
      var t := D.Run(d, moves);
      i in t.acked && t.stream == d.stream && t.world == d.world && OnlyNewCalls(d.calls, t.calls)
  {
    hide D.Next, D.Run, D.RoomAt, HandleAll, NobodyEvicted;
    EmptyRoomCompletes(d.world, d.stream[i].event, api);
    var c;
    moves, c := DeliveredBy(d, api, i, [D.Fetch([]), D.Finish]);
  }

  // ---- Whoever is entitled can be reached ----

  /** A socket can come into a room, with a live session and as a member of the chat. */
  lemma RoomsCanBeJoined(d: D.State, x: SocketId, api: D.ApiId, chat: Chat)
    requires api !in d.world.dead && x !in d.world.connected && x !in d.world.gone
    ensures
      var moves := [D.ByWorld(D.StartApi(api)), D.ByWorld(D.Connect(x, api)), D.ByWorld(D.SetSession(x, true)),
                    D.ByWorld(D.SetMember(x, chat, true)), D.ByWorld(D.Join(x, chat))];
      var t := D.Run(d, moves);
      && D.InRoom(t, x, api, chat) && api in t.world.live
      && x in t.world.sessions && (x, chat) in t.world.members
      && t == d.(world := t.world)
  {
    var rest4 := [D.ByWorld(D.Join(x, chat))];
    var rest3 := [D.ByWorld(D.SetMember(x, chat, true))] + rest4;
    var rest2 := [D.ByWorld(D.SetSession(x, true))] + rest3;
    var rest1 := [D.ByWorld(D.Connect(x, api))] + rest2;
    var d1 := D.Next(d, D.ByWorld(D.StartApi(api)));
    var d2 := D.Next(d1, D.ByWorld(D.Connect(x, api)));
    var d3 := D.Next(d2, D.ByWorld(D.SetSession(x, true)));
    var d4 := D.Next(d3, D.ByWorld(D.SetMember(x, chat, true)));
    var d5 := D.Next(d4, D.ByWorld(D.Join(x, chat)));
    hide D.Run;
    DeliveryStep(d, D.ByWorld(D.StartApi(api)), rest1);
    DeliveryStep(d1, D.ByWorld(D.Connect(x, api)), rest2);
    DeliveryStep(d2, D.ByWorld(D.SetSession(x, true)), rest3);
    DeliveryStep(d3, D.ByWorld(D.SetMember(x, chat, true)), rest4);
    DeliveryStep(d4, D.ByWorld(D.Join(x, chat)), []);
    DeliveryNothing(d5);
    assert rest4 + [] == rest4;
    assert [D.ByWorld(D.StartApi(api))] + rest1 ==
      [D.ByWorld(D.StartApi(api)), D.ByWorld(D.Connect(x, api)), D.ByWorld(D.SetSession(x, true)),
       D.ByWorld(D.SetMember(x, chat, true)), D.ByWorld(D.Join(x, chat))];
  }

  /**
   * Nothing stands in the way for good: from every reachable state a socket that is in its room, with a
   * live session and membership, can be sent any entry of that chat, and the entry acknowledged.
   */
  lemma EntitledCanBeSent(d: D.State, x: SocketId, api: D.ApiId, i: nat) returns (moves: seq<D.Move>)
    requires D.Reachable(d) && i < |d.stream| && d.stream[i].Readable?
    requires D.InRoom(d, x, api, d.stream[i].event.chat)
    requires x in d.world.sessions && (x, d.stream[i].event.chat) in d.world.members
    ensures
      var t := D.Run(d, moves);
      && i in t.acked && D.InRoom(t, x, api, d.stream[i].event.chat)
      && exists c :: c !in d.calls && D.CallFor(t, c, d.stream[i].event, api) && x in t.calls[c].sent
  {
    hide D.Next, D.Run, HandleAll, NobodyEvicted;
    D.ReachableOk(d);
    assert D.WorldOk(d.world);
    hide D.Ok;
    var clearing := Clearing(d, x, api);
    var cleared := D.Run(d, clearing);
    var event := d.stream[i].event;
    assert D.RoomAt(cleared.world, api, event.chat) == {x};
    OneSocketIsSent(cleared.world, event, api, x);
    var delivering, c :=
      DeliveredBy(cleared, api, i, [D.Fetch([x]), D.CheckSession(true), D.CheckMember(Member), D.Finish]);
    moves := clearing + delivering;
    DeliveryJoined(d, clearing, delivering);
    assert D.CallFor(D.Run(d, moves), c, event, api);
  }
}
