/**
 * Relays, API instances and sockets around one stream, stopping at every await. Requests and
 * answers may be lost, relays and instances may crash, sockets, sessions and memberships change
 * at any time.
 */
module DeliveryRuns {
  import opened Collections
  import opened OutboxRows
  import opened Gateway

  type RelayId = nat
  type RequestId = nat
  type CallId = nat
  type ApiId = nat

  datatype CallStatus = Running | Completed | Failed

  /**
   * One local delivery on one instance. `found` is the room as the adapter returned it; `todo` is
   * what the loop has left; `passed` are the sockets whose session this call has validated.
   */
  datatype Call = Call(
    event: Event, api: ApiId, found: Option<set<SocketId>>, todo: seq<SocketId>,
    passed: set<SocketId>, sent: set<SocketId>, evicted: set<SocketId>, status: CallStatus)

  datatype Phase = Delivering | Counted | Asking | Accepted | Refused

  /**
   * One posted event. `expected` are the peers the acknowledged emission waits for; `missing` have
   * not answered yet, `lost` are those given up as dead, `handlers` are the peers' own deliveries.
   */
  datatype Request = Request(
    entry: nat, event: Event, api: ApiId, call: CallId, phase: Phase,
    expected: Option<set<ApiId>>, missing: set<ApiId>, lost: set<ApiId>, handlers: map<ApiId, CallId>)

  /** The entries a relay has read and not yet dealt with, and its request for the first of them. */
  datatype Relay = Relay(queue: seq<nat>, posted: Option<RequestId>)

  /** Instances that run or are dead for good, sockets with their rooms, live sessions, and who may read which chat. */
  datatype World = World(
    live: set<ApiId>, dead: set<ApiId>,
    connected: map<SocketId, ApiId>, gone: set<SocketId>, joined: set<(SocketId, Chat)>,
    sessions: set<SocketId>, members: set<(SocketId, Chat)>)

  datatype State = State(
    stream: seq<Raw>, acked: map<nat, Option<RequestId>>,
    relays: map<RelayId, Relay>, requests: map<RequestId, Request>, calls: map<CallId, Call>, world: World)

  const START: State := State([], map[], map[], map[], map[], World({}, {}, map[], {}, {}, {}, {}))

  datatype RelayMove =
    | Read(r: RelayId, batch: seq<nat>)
    | Post(r: RelayId, q: RequestId, c: CallId, api: ApiId)
    | Settle(r: RelayId)
    | SkipEntry(r: RelayId)
    | RelayCrash(r: RelayId)

  datatype CallMove =
    | Fetch(order: seq<SocketId>)
    | CheckSession(valid: bool)
    | CheckMember(answer: Membership)
    | Finish
    | FailCall

  datatype RequestMove =
    | Count
    | Ask
    | PeerStarts(p: ApiId, c: CallId)
    | PeerAnswers(p: ApiId)
    | PeerLost(p: ApiId)
    | Resolve
    | Refuse

  datatype WorldMove =
    | StartApi(api: ApiId)
    | CrashApi(api: ApiId)
    | Connect(x: SocketId, api: ApiId)
    | Disconnect(x: SocketId)
    | Join(x: SocketId, chat: Chat)
    | Leave(x: SocketId, chat: Chat)
    | SetSession(x: SocketId, valid: bool)
    | SetMember(x: SocketId, chat: Chat, member: bool)

  datatype Move =
    | Extend(raw: Raw)
    | ByRelay(relay: RelayMove)
    | ByCall(c: CallId, call: CallMove)
    | ByRequest(q: RequestId, request: RequestMove)
    | ByWorld(world: WorldMove)

  ghost function RoomAt(w: World, api: ApiId, chat: Chat): set<SocketId> {
    set x | x in w.connected && w.connected[x] == api && (x, chat) in w.joined
  }

  ghost predicate Lists(order: seq<SocketId>, room: set<SocketId>) {
    && (forall x :: x in order <==> x in room)
    && (forall i, j :: 0 <= i < j < |order| ==> order[i] != order[j])
  }

  function NewCall(event: Event, api: ApiId): Call {
    Call(event, api, None, [], {}, {}, {}, Running)
  }

  function SetCall(s: State, c: CallId, call: Call): State {
    s.(calls := s.calls[c := call])
  }

  function SetRequest(s: State, q: RequestId, request: Request): State {
    s.(requests := s.requests[q := request])
  }

  /** Disconnecting is for good: a socket's id is not used again. */
  function Drop(w: World, sockets: set<SocketId>): World {
    w.(connected := w.connected - sockets, gone := w.gone + sockets)
  }

  ghost function RelayNext(s: State, m: RelayMove): State
  {
    match m
    case Read(r, batch) =>
      if r in s.relays || exists i :: i in batch && i >= |s.stream| then s
      else s.(relays := s.relays[r := Relay(batch, None)])
    case Post(r, q, c, api) =>
      if r !in s.relays || s.relays[r].queue == [] || s.relays[r].posted.Some? then s
      else
        var entry := s.relays[r].queue[0];
        if entry >= |s.stream| || s.stream[entry].Unreadable? || api !in s.world.live || q in s.requests
          || c in s.calls then s
        else
          var event := s.stream[entry].event;
          s.(relays := s.relays[r := s.relays[r].(posted := Some(q))],
             calls := s.calls[c := NewCall(event, api)],
             requests := s.requests[q := Request(entry, event, api, c, Delivering, None, {}, {}, map[])])
    case Settle(r) =>
      if r !in s.relays || s.relays[r].queue == [] || s.relays[r].queue[0] >= |s.stream| then s
      else
        var entry, posted := s.relays[r].queue[0], s.relays[r].posted;
        if || s.stream[entry].Unreadable?
           || (posted.Some? && posted.value in s.requests && s.requests[posted.value].phase.Accepted?)
        then s.(acked := s.acked[entry := posted], relays := s.relays[r := Relay(s.relays[r].queue[1..], None)])
        else s
    case SkipEntry(r) =>
      if r !in s.relays || s.relays[r].queue == [] then s
      else s.(relays := s.relays[r := Relay(s.relays[r].queue[1..], None)])
    case RelayCrash(r) => s.(relays := s.relays - {r})
  }

  /** The loop is done with its first socket: it was sent the event. */
  function Sent(call: Call): Call
    requires call.todo != []
  {
    call.(todo := call.todo[1..], sent := call.sent + {call.todo[0]})
  }

  /** The loop is done with its first socket: it is to be disconnected. */
  function Evicted(call: Call): Call
    requires call.todo != []
  {
    call.(todo := call.todo[1..], evicted := call.evicted + {call.todo[0]})
  }

  /**
   * One step of a local delivery. The session check may fail closed, so it answers yes only for a
   * live session; the membership query answers truly or not at all.
   */
  ghost function Handled(w: World, call: Call, m: CallMove): Call {
    if !call.status.Running? || call.api !in w.live then call
    else
      match m
      case Fetch(order) =>
        var room := RoomAt(w, call.api, call.event.chat);
        if call.found.Some? || !Lists(order, room) then call else call.(found := Some(room), todo := order)
      case CheckSession(valid) =>
        if call.todo == [] || call.todo[0] in call.passed || (valid && call.todo[0] !in w.sessions) then call
        else if valid then call.(passed := call.passed + {call.todo[0]})
        else Evicted(call)
      case CheckMember(answer) =>
        if || call.todo == [] || call.todo[0] !in call.passed
           || (answer.Member? && (call.todo[0], call.event.chat) !in w.members)
           || (answer.NotMember? && (call.todo[0], call.event.chat) in w.members)
        then call
        else if answer.Unknown? then call.(status := Failed)
        else if answer.Member? then Sent(call)
        else Evicted(call)
      case Finish => if call.found.None? || call.todo != [] then call else call.(status := Completed)
      case FailCall => call.(status := Failed)
  }

  ghost function CallNext(s: State, c: CallId, m: CallMove): State {
    if c !in s.calls then s
    else
      var call := Handled(s.world, s.calls[c], m);
      SetCall(s.(world := Drop(s.world, call.evicted - s.calls[c].evicted)), c, call)
  }

  predicate IsComplete(s: State, c: CallId) {
    c in s.calls && s.calls[c].status.Completed?
  }

  /** One step of the receiving instance. */
  ghost function Served(s: State, r: Request, m: RequestMove): Request {
    if m.Refuse? then (if r.phase.Accepted? then r else r.(phase := Refused))
    else if r.api !in s.world.live then r
    else
      match m
      case Count =>
        if !r.phase.Delivering? || !IsComplete(s, r.call) then r
        else r.(phase := if s.world.live == {r.api} then Accepted else Counted)
      case Ask =>
        if !r.phase.Counted? then r
        else r.(phase := Asking, expected := Some(s.world.live - {r.api}), missing := s.world.live - {r.api})
      case PeerStarts(p, c) =>
        if !r.phase.Asking? || p !in r.missing || p !in s.world.live || p in r.handlers || c in s.calls then r
        else r.(handlers := r.handlers[p := c])
      case PeerAnswers(p) =>
        if !r.phase.Asking? || p !in r.handlers || !IsComplete(s, r.handlers[p]) then r
        else r.(missing := r.missing - {p})
      case PeerLost(p) =>
        if !r.phase.Asking? || p !in r.missing || p !in s.world.dead then r
        else r.(missing := r.missing - {p}, lost := r.lost + {p})
      case Resolve =>
        if !r.phase.Asking? || r.missing != {} || r.expected.None? then r
        else r.(phase := if r.expected.value <= r.lost then Refused else Accepted)
  }

  /** A peer that takes up the event starts a delivery of its own. */
  ghost function RequestNext(s: State, q: RequestId, m: RequestMove): State {
    if q !in s.requests then s
    else
      var r := Served(s, s.requests[q], m);
      var calls := if m.PeerStarts? && r != s.requests[q] then s.calls[m.c := NewCall(r.event, m.p)] else s.calls;
      s.(calls := calls, requests := s.requests[q := r])
  }

  function WorldNext(w: World, m: WorldMove): World {
    match m
    case StartApi(api) => if api in w.dead then w else w.(live := w.live + {api})
    case CrashApi(api) =>
      if api !in w.live then w
      else Drop(w.(live := w.live - {api}, dead := w.dead + {api}), set x | x in w.connected && w.connected[x] == api)
    case Connect(x, api) =>
      if x in w.connected || x in w.gone || api !in w.live then w else w.(connected := w.connected[x := api])
    case Disconnect(x) => if x !in w.connected then w else Drop(w, {x})
    case Join(x, chat) => if x !in w.connected then w else w.(joined := w.joined + {(x, chat)})
    case Leave(x, chat) => w.(joined := w.joined - {(x, chat)})
    case SetSession(x, valid) => w.(sessions := if valid then w.sessions + {x} else w.sessions - {x})
    case SetMember(x, chat, member) => w.(members := if member then w.members + {(x, chat)}
      else w.members - {(x, chat)})
  }

  ghost function Next(s: State, m: Move): State {
    match m
    case ByRelay(relay) => RelayNext(s, relay)
    case ByCall(c, call) => CallNext(s, c, call)
    case ByRequest(q, request) => RequestNext(s, q, request)
    case ByWorld(world) => s.(world := WorldNext(s.world, world))
    case Extend(raw) => s.(stream := s.stream + [raw])
  }

  ghost function Run(s: State, moves: seq<Move>): State
    decreases moves
  {
    if moves == [] then s else Run(Next(s, moves[0]), moves[1..])
  }

  // ---- The invariant ----

  ghost predicate WorldOk(w: World) {
    && w.live !! w.dead
    && w.connected.Keys !! w.gone
    && (forall x :: x in w.connected ==> w.connected[x] in w.live)
  }

  /** A call accounts for every socket it found: still to do, sent the event, or disconnected. */
  ghost predicate CallOk(w: World, call: Call) {
    && call.evicted <= w.gone
    && call.sent <= call.passed
    && (call.found.None? ==> call.todo == [])
    && (call.found.Some? ==> forall x :: x in call.found.value ==>
      x in call.todo || x in call.sent || x in call.evicted)
    && (call.status.Completed? ==> call.found.Some? && call.todo == [])
  }

  ghost predicate CallFor(s: State, c: CallId, event: Event, api: ApiId) {
    c in s.calls && s.calls[c].event == event && s.calls[c].api == api
  }

  ghost predicate CompletedFor(s: State, c: CallId, event: Event, api: ApiId) {
    CallFor(s, c, event, api) && s.calls[c].status.Completed?
  }

  ghost predicate RequestOk(s: State, r: Request) {
    && r.entry < |s.stream| && s.stream[r.entry] == Readable(r.event)
    && CallFor(s, r.call, r.event, r.api)
    && (!r.phase.Delivering? && !r.phase.Refused? ==> CompletedFor(s, r.call, r.event, r.api))
    && (forall p :: p in r.handlers ==> CallFor(s, r.handlers[p], r.event, p))
    && r.lost <= s.world.dead
    && (r.expected.Some? ==>
          forall p :: p in r.expected.value && p !in r.missing && p !in r.lost ==>
            p in r.handlers && CompletedFor(s, r.handlers[p], r.event, p))
    && (r.phase.Asking? ==> r.expected.Some?)
    && (r.phase.Delivering? || r.phase.Counted? ==> r.expected.None?)
    && (r.phase.Accepted? ==> r.missing == {})
    && (r.expected.None? ==> r.missing == {})
  }

  ghost predicate RelayOk(s: State, r: RelayId)
    requires r in s.relays
  {
    var relay := s.relays[r];
    && (forall i :: i in relay.queue ==> i < |s.stream|)
    && (relay.posted.Some? ==>
          relay.queue != [] && relay.posted.value in s.requests
            && s.requests[relay.posted.value].entry == relay.queue[0])
  }

  ghost predicate AckOk(s: State, i: nat)
    requires i in s.acked
  {
    && i < |s.stream|
    && (s.stream[i].Readable? ==>
          && s.acked[i].Some? && s.acked[i].value in s.requests
          && s.requests[s.acked[i].value].entry == i && s.requests[s.acked[i].value].phase.Accepted?)
  }

  ghost predicate CallsOk(s: State) { forall c :: c in s.calls ==> CallOk(s.world, s.calls[c]) }
  ghost predicate RequestsOk(s: State) { forall q :: q in s.requests ==> RequestOk(s, s.requests[q]) }
  ghost predicate RelaysOk(s: State) { forall r :: r in s.relays ==> RelayOk(s, r) }
  ghost predicate AcksOk(s: State) { forall i :: i in s.acked ==> AckOk(s, i) }

  ghost predicate Ok(s: State) {
    WorldOk(s.world) && CallsOk(s) && RequestsOk(s) && RelaysOk(s) && AcksOk(s)
  }

  ghost predicate CallsLater(s: State, t: State) {
    forall c :: c in s.calls ==>
      CallFor(t, c, s.calls[c].event, s.calls[c].api) && (s.calls[c].status.Completed? ==> t.calls[c] == s.calls[c])
  }

  /** What every move keeps of the past. */
  ghost predicate Later(s: State, t: State) {
    && s.stream <= t.stream
    && s.world.dead <= t.world.dead && s.world.gone <= t.world.gone
    && CallsLater(s, t)
    && (forall q :: q in s.requests ==>
          q in t.requests && t.requests[q].entry == s.requests[q].entry
            && (s.requests[q].phase.Accepted? ==> t.requests[q] == s.requests[q]))
  }

  lemma LaterRefl(s: State)
    ensures Later(s, s)
  {
  }

  lemma LaterTrans(s: State, t: State, u: State)
    requires Later(s, t) && Later(t, u)
    ensures Later(s, u)
  {
    assert forall c :: c in s.calls ==> CallFor(t, c, s.calls[c].event, s.calls[c].api);
  }

  lemma RequestLasts(s: State, t: State, r: Request)
    requires RequestOk(s, r) && s.stream <= t.stream && s.world.dead <= t.world.dead && CallsLater(s, t)
    ensures RequestOk(t, r)
  {
  }

  /** A call may be started, or carried on for the same event on the same instance until it completes. */
  lemma CallReplaced(s: State, c: CallId, call: Call)
    requires Ok(s) && CallOk(s.world, call)
    requires c in s.calls ==>
      && CallFor(SetCall(s, c, call), c, s.calls[c].event, s.calls[c].api)
      && (s.calls[c].status.Completed? ==> call == s.calls[c])
    ensures Ok(SetCall(s, c, call)) && Later(s, SetCall(s, c, call))
  {
    var t := SetCall(s, c, call);
    hide RequestOk;
    forall q | q in t.requests ensures RequestOk(t, t.requests[q]) { RequestLasts(s, t, s.requests[q]); }
    forall r | r in t.relays ensures RelayOk(t, r) { assert RelayOk(s, r); }
    forall i | i in t.acked ensures AckOk(t, i) { assert AckOk(s, i); }
  }

  /** A request may be started, or carried on for the same entry until it is accepted. */
  lemma RequestReplaced(s: State, q: RequestId, r: Request)
    requires Ok(s) && RequestOk(s, r)
    requires q in s.requests ==>
      r.entry == s.requests[q].entry && (s.requests[q].phase.Accepted? ==> r == s.requests[q])
    ensures Ok(SetRequest(s, q, r)) && Later(s, SetRequest(s, q, r))
  {
    var t := SetRequest(s, q, r);
    hide RequestOk;
    forall p | p in t.requests ensures RequestOk(t, t.requests[p]) {
      RequestLasts(s, t, if p == q then r else s.requests[p]);
    }
    forall r | r in t.relays ensures RelayOk(t, r) { assert RelayOk(s, r); }
    forall i | i in t.acked ensures AckOk(t, i) { assert AckOk(s, i); }
  }

  /** Anything may happen to sockets, instances and the end of the stream, as long as the dead stay dead. */
  lemma WorldReplaced(s: State, stream: seq<Raw>, world: World)
    requires Ok(s) && WorldOk(world) && s.stream <= stream && s.world.gone <= world.gone && s.world.dead <= world.dead
    ensures Ok(s.(stream := stream, world := world)) && Later(s, s.(stream := stream, world := world))
  {
    var t := s.(stream := stream, world := world);
    hide RequestOk;
    forall q | q in t.requests ensures RequestOk(t, t.requests[q]) { RequestLasts(s, t, s.requests[q]); }
    forall r | r in t.relays ensures RelayOk(t, r) { assert RelayOk(s, r); }
    forall i | i in t.acked ensures AckOk(t, i) { assert AckOk(s, i); }
  }

  /** A relay may do what it likes as long as it keeps track of its request, and acknowledge what is settled. */
  lemma RelayReplaced(s: State, t: State, r: RelayId)
    requires Ok(s) && (forall i :: i in t.acked && i !in s.acked ==> AckOk(t, i))
    requires r in t.relays ==> RelayOk(t, r)
    requires forall p :: p in t.relays && p != r ==> p in s.relays && t.relays[p] == s.relays[p]
    requires forall i :: i in s.acked && i in t.acked ==> t.acked[i] == s.acked[i] || AckOk(t, i)
    requires t == s.(relays := t.relays, acked := t.acked)
    ensures Ok(t) && Later(s, t)
  {
    hide RequestOk;
    forall q | q in t.requests ensures RequestOk(t, t.requests[q]) { RequestLasts(s, t, s.requests[q]); }
    forall p | p in t.relays ensures RelayOk(t, p) { assert p != r ==> RelayOk(s, p); }
    forall i | i in t.acked ensures AckOk(t, i) { assert i in s.acked ==> AckOk(s, i); }
  }

  lemma PostKeepsOk(s: State, m: RelayMove)
    requires Ok(s) && m.Post? && RelayNext(s, m) != s
    ensures Later(s, RelayNext(s, m)) && Ok(RelayNext(s, m))
  {
    var t := RelayNext(s, m);
    assert RelayOk(s, m.r);
    hide Ok, Later;
    var request := t.requests[m.q];
    var s1 := SetCall(s, m.c, NewCall(request.event, m.api));
    var s2 := SetRequest(s1, m.q, request);
    CallReplaced(s, m.c, NewCall(request.event, m.api));
    RequestReplaced(s1, m.q, request);
    RelayReplaced(s2, t, m.r);
    hide RelayNext, RelayOk, RequestOk, CallOk;
    LaterTrans(s, s1, s2);
    LaterTrans(s, s2, t);
  }

  lemma RelayKeepsOk(s: State, m: RelayMove)
    requires Ok(s)
    ensures Later(s, RelayNext(s, m)) && Ok(RelayNext(s, m))
  {
    if m.Post? && RelayNext(s, m) != s {
      hide Ok, RelayNext, Later;
      PostKeepsOk(s, m);
    } else {
      assert m.r in s.relays ==> RelayOk(s, m.r);
      hide Ok, Later;
      assert m.r in s.relays && s.relays[m.r].queue != [] ==> forall i :: i in s.relays[m.r].queue[1..] ==>
        i in s.relays[m.r].queue;
      RelayReplaced(s, RelayNext(s, m), m.r);
    }
  }

  /** A step of a call keeps account of its sockets; completed calls stay as they are. */
  lemma HandledIsOk(w: World, call: Call, m: CallMove)
    requires CallOk(w, call)
    ensures
      var now := Handled(w, call, m);
      && CallOk(Drop(w, now.evicted - call.evicted), now)
      && now.event == call.event && now.api == call.api && (call.status.Completed? ==> now == call)
  {
    assert call.todo != [] ==> forall x :: x in call.todo ==> x == call.todo[0] || x in call.todo[1..];
  }

  lemma DropStaysOk(w: World, sockets: set<SocketId>)
    requires WorldOk(w)
    ensures WorldOk(Drop(w, sockets))
  {
  }

  lemma CallKeepsOk(s: State, c: CallId, m: CallMove)
    requires Ok(s)
    ensures Later(s, CallNext(s, c, m)) && Ok(CallNext(s, c, m))
  {
    if c in s.calls {
      assert CallOk(s.world, s.calls[c]) && WorldOk(s.world);
      hide Ok, Later, CallOk, WorldOk, Handled;
      HandledIsOk(s.world, s.calls[c], m);
      var call := Handled(s.world, s.calls[c], m);
      var world := Drop(s.world, call.evicted - s.calls[c].evicted);
      DropStaysOk(s.world, call.evicted - s.calls[c].evicted);
      WorldReplaced(s, s.stream, world);
      CallReplaced(s.(world := world), c, call);
      LaterTrans(s, s.(world := world), CallNext(s, c, m));
    } else {
      LaterRefl(s);
    }
  }

  lemma ServedIsOk(s: State, r: Request, m: RequestMove)
    requires RequestOk(s, r) && !m.PeerStarts?
    ensures
      var now := Served(s, r, m);
      RequestOk(s, now) && now.entry == r.entry && (r.phase.Accepted? ==> now == r)
  {
  }

  lemma PeerIsOk(s: State, r: Request, p: ApiId, c: CallId)
    requires RequestOk(s, r)
    ensures
      var now := Served(s, r, PeerStarts(p, c));
      || now == r
      || (&& c !in s.calls && r.phase.Asking? && now.entry == r.entry && now.event == r.event
          && RequestOk(SetCall(s, c, NewCall(r.event, p)), now))
  {
  }

  lemma RequestKeepsOk(s: State, q: RequestId, m: RequestMove)
    requires Ok(s)
    ensures Later(s, RequestNext(s, q, m)) && Ok(RequestNext(s, q, m))
  {
    var t := RequestNext(s, q, m);
    LaterRefl(s);
    if q in s.requests {
      var r := s.requests[q];
      assert RequestOk(s, r);
      hide Ok, Later, RequestOk, Served;
      if m.PeerStarts? && t.requests[q] != r {
        PeerIsOk(s, r, m.p, m.c);
        CallReplaced(s, m.c, NewCall(r.event, m.p));
        RequestReplaced(SetCall(s, m.c, NewCall(r.event, m.p)), q, t.requests[q]);
        LaterTrans(s, SetCall(s, m.c, NewCall(r.event, m.p)), t);
      } else {
        if !m.PeerStarts? { ServedIsOk(s, r, m); }
        RequestReplaced(s, q, t.requests[q]);
      }
    }
  }

  lemma WorldStaysOk(w: World, m: WorldMove)
    requires WorldOk(w)
    ensures WorldOk(WorldNext(w, m)) && w.gone <= WorldNext(w, m).gone && w.dead <= WorldNext(w, m).dead
  {
  }

  lemma NextKeepsOk(s: State, m: Move)
    requires Ok(s)
    ensures Ok(Next(s, m)) && Later(s, Next(s, m))
  {
    assert WorldOk(s.world);
    hide Ok, Later, RelayNext, CallNext, RequestNext, WorldNext, WorldOk;
    match m
    case ByRelay(relay) => RelayKeepsOk(s, relay);
    case ByCall(c, call) => CallKeepsOk(s, c, call);
    case ByRequest(q, request) => RequestKeepsOk(s, q, request);
    case ByWorld(world) =>
      WorldStaysOk(s.world, world);
      WorldReplaced(s, s.stream, WorldNext(s.world, world));
    case Extend(raw) => WorldReplaced(s, s.stream + [raw], s.world);
  }

  lemma {:induction false} RunKeepsOk(s: State, moves: seq<Move>)
    requires Ok(s)
    ensures Ok(Run(s, moves)) && Later(s, Run(s, moves))
    decreases moves
  {
    hide Ok, Later, Next;
    if moves == [] {
      LaterRefl(s);
    } else {
      NextKeepsOk(s, moves[0]);
      RunKeepsOk(Next(s, moves[0]), moves[1..]);
      LaterTrans(s, Next(s, moves[0]), Run(s, moves));
    }
  }

  ghost predicate Reachable(s: State) {
    exists moves :: Run(START, moves) == s
  }

  lemma ReachableOk(s: State)
    requires Reachable(s)
    ensures Ok(s)
  {
    var moves :| Run(START, moves) == s;
    RunKeepsOk(START, moves);
  }

  // ---- At least once ----

  /** Every socket the call found in the room was sent the event after its checks, or is disconnected for good. */
  ghost predicate Delivered(s: State, c: CallId, event: Event, api: ApiId) {
    && CompletedFor(s, c, event, api)
    && s.calls[c].found.Some?
    && forall x :: x in s.calls[c].found.value ==>
         || (x in s.calls[c].sent && x in s.calls[c].passed)
         || (x in s.calls[c].evicted && x !in s.world.connected)
  }

  /** The receiving instance delivered, and so did every peer it asked that is not dead. */
  ghost predicate DeliveredEverywhere(s: State, q: RequestId) {
    && q in s.requests
    && Delivered(s, s.requests[q].call, s.requests[q].event, s.requests[q].api)
    && (s.requests[q].expected.Some? ==>
          forall p :: p in s.requests[q].expected.value ==>
            || (p in s.requests[q].handlers && Delivered(s, s.requests[q].handlers[p], s.requests[q].event, p))
            || p in s.world.dead)
  }

  lemma AcceptedIsDelivered(s: State, q: RequestId)
    requires Ok(s) && q in s.requests && s.requests[q].phase.Accepted?
    ensures DeliveredEverywhere(s, q)
  {
    assert RequestOk(s, s.requests[q]);
    forall c, api | CompletedFor(s, c, s.requests[q].event, api) ensures Delivered(s, c, s.requests[q].event, api) {
      assert CallOk(s.world, s.calls[c]) && WorldOk(s.world);
    }
  }

  lemma AcknowledgedIsDelivered(s: State, i: nat)
    requires Ok(s) && i in s.acked
    ensures i < |s.stream|
    ensures s.stream[i].Readable? ==>
      exists q :: q in s.requests && s.requests[q].entry == i && s.requests[q].event == s.stream[i].event
        && DeliveredEverywhere(s, q)
  {
    assert AckOk(s, i);
    if s.stream[i].Readable? {
      assert RequestOk(s, s.requests[s.acked[i].value]);
      AcceptedIsDelivered(s, s.acked[i].value);
    }
  }

  /** A well-formed entry is acknowledged only after the receiving instance and every live peer delivered it. */
  lemma AcknowledgedMeansDelivered(s: State, i: nat)
    requires Reachable(s) && i in s.acked
    ensures i < |s.stream|
    ensures s.stream[i].Readable? ==>
      exists q :: q in s.requests && s.requests[q].entry == i && s.requests[q].event == s.stream[i].event
        && DeliveredEverywhere(s, q)
  {
    ReachableOk(s);
    AcknowledgedIsDelivered(s, i);
  }

  lemma OtherCalls(s: State, m: Move, c: CallId)
    requires c in Next(s, m).calls && !(m.ByCall? && m.c == c)
    ensures Next(s, m).calls[c] == if c in s.calls then s.calls[c]
      else NewCall(Next(s, m).calls[c].event, Next(s, m).calls[c].api)
  {
    match m
    case ByRelay(_) => hide CallNext, RequestNext, WorldNext;
    case ByCall(_, _) => hide RelayNext, RequestNext, WorldNext;
    case ByRequest(_, _) => hide RelayNext, CallNext, WorldNext;
    case _ => hide RelayNext, CallNext, RequestNext, WorldNext;
  }

  lemma OtherRequests(s: State, m: Move, q: RequestId)
    requires q in Next(s, m).requests && !(m.ByRequest? && m.q == q)
    ensures
      var now := Next(s, m).requests[q];
      if q in s.requests then now == s.requests[q]
      else now == Request(now.entry, now.event, now.api, now.call, Delivering, None, {}, {}, map[])
           && now.call !in s.calls && now.call in Next(s, m).calls
           && Next(s, m).calls[now.call] == NewCall(now.event, now.api)
  {
    match m
    case ByRelay(_) => hide CallNext, RequestNext, WorldNext;
    case ByCall(_, _) => hide RelayNext, RequestNext, WorldNext;
    case ByRequest(_, _) => hide RelayNext, CallNext, WorldNext;
    case _ => hide RelayNext, CallNext, RequestNext, WorldNext;
  }

  /** The peers asked are all other live instances, and none are asked only when there are none. */
  lemma EveryLivePeerIsAsked(s: State, m: Move, q: RequestId)
    requires Ok(s) && q in Next(s, m).requests
    ensures
      var now := Next(s, m).requests[q];
      && (now.expected.Some? && (q !in s.requests || s.requests[q].expected.None?) ==>
            now.expected == Some(s.world.live - {now.api}) && CompletedFor(s, now.call, now.event, now.api))
      && (now.phase.Accepted? && (q !in s.requests || !s.requests[q].phase.Accepted?) ==>
            now.expected.Some? || s.world.live == {now.api})
  {
    if m.ByRequest? && m.q == q {
      assert q in s.requests && RequestOk(s, s.requests[q]);
      hide Ok, RelayNext, CallNext, WorldNext;
    } else {
      hide Next;
      OtherRequests(s, m, q);
    }
  }

  /** Whom a call finds, lets pass, sends to and disconnects, and on what grounds. */
  lemma EveryActIsGrounded(s: State, m: Move, c: CallId, x: SocketId)
    requires c in Next(s, m).calls
    ensures
      var now := Next(s, m).calls[c];
      var before := if c in s.calls then s.calls[c] else NewCall(now.event, now.api);
      && now.event == before.event && now.api == before.api
      && (now.found != before.found ==>
        before.found.None? && now.found == Some(RoomAt(s.world, now.api, now.event.chat)))
      && (x in now.passed && x !in before.passed ==> m == ByCall(c, CheckSession(true)) && x in s.world.sessions)
      && (x in now.sent && x !in before.sent ==>
            m == ByCall(c, CheckMember(Member)) && x in before.passed && (x, now.event.chat) in s.world.members)
      && (x in now.evicted && x !in before.evicted ==>
            m == ByCall(c, CheckSession(false)) || (x, now.event.chat) !in s.world.members)
  {
    if m.ByCall? && m.c == c {
      hide RelayNext, RequestNext, WorldNext;
    } else {
      OtherCalls(s, m, c) by { hide Next; }
      hide Next;
    }
  }

  lemma {:induction false} RunLast(s: State, moves: seq<Move>)
    requires moves != []
    ensures Run(s, moves) == Next(Run(s, moves[..|moves| - 1]), moves[|moves| - 1])
    decreases moves
  {
    hide Next;
    if |moves| > 1 {
      RunLast(Next(s, moves[0]), moves[1..]);
      assert moves[1..][..|moves| - 2] == moves[..|moves| - 1][1..];
    }
  }

  /**
   * At move `k` of the run the call emits to the socket, whose membership holds there; at the earlier
   * move `j` its session did.
   */
  ghost predicate CheckedThenSent(moves: seq<Move>, j: nat, k: nat, c: CallId, x: SocketId)
    requires j < k < |moves|
  {
    && moves[j] == ByCall(c, CheckSession(true)) && x in Run(START, moves[..j]).world.sessions
    && moves[k] == ByCall(c, CheckMember(Member))
    && c in Run(START, moves[..k]).calls
    && (x, Run(START, moves[..k]).calls[c].event.chat) in Run(START, moves[..k]).world.members
  }

  lemma {:induction false} PassedWasChecked(moves: seq<Move>, c: CallId, x: SocketId)
    requires c in Run(START, moves).calls && x in Run(START, moves).calls[c].passed
    ensures exists j ::
      0 <= j < |moves| && moves[j] == ByCall(c, CheckSession(true)) && x in Run(START, moves[..j]).world.sessions
    decreases moves
  {
    hide Next;
    var n := |moves| - 1;
    RunLast(START, moves);
    var s := Run(START, moves[..n]);
    EveryActIsGrounded(s, moves[n], c, x);
    if c in s.calls && x in s.calls[c].passed {
      PassedWasChecked(moves[..n], c, x);
      var j :| 0 <= j < n && moves[..n][j] == ByCall(c, CheckSession(true))
        && x in Run(START, moves[..n][..j]).world.sessions;
      assert moves[..n][..j] == moves[..j];
    }
  }

  lemma PrefixOfPrefix(moves: seq<Move>, n: nat, j: nat, k: nat, c: CallId, x: SocketId)
    requires j < k < n <= |moves| && CheckedThenSent(moves[..n], j, k, c, x)
    ensures CheckedThenSent(moves, j, k, c, x)
  {
    hide Next;
    assert moves[..n][..j] == moves[..j] && moves[..n][..k] == moves[..k];
  }

  /**
   * In every run, whoever was sent an event had a live session and then membership, both checked by
   * that very delivery.
   */
  lemma {:induction false} EmissionsFollowChecks(moves: seq<Move>, c: CallId, x: SocketId)
    requires c in Run(START, moves).calls && x in Run(START, moves).calls[c].sent
    ensures exists j, k :: 0 <= j < k < |moves| && CheckedThenSent(moves, j, k, c, x)
    decreases moves
  {
    hide Next;
    var n := |moves| - 1;
    RunLast(START, moves);
    var s := Run(START, moves[..n]);
    EveryActIsGrounded(s, moves[n], c, x);
    if c in s.calls && x in s.calls[c].sent {
      EmissionsFollowChecks(moves[..n], c, x);
      var j, k :| 0 <= j < k < n && CheckedThenSent(moves[..n], j, k, c, x);
      PrefixOfPrefix(moves, n, j, k, c, x);
    } else {
      assert c in s.calls;
      PassedWasChecked(moves[..n], c, x);
      var j :| 0 <= j < n && moves[..n][j] == ByCall(c, CheckSession(true))
        && x in Run(START, moves[..n][..j]).world.sessions;
      assert moves[..n][..j] == moves[..j];
      assert CheckedThenSent(moves, j, n, c, x);
    }
  }

  // ---- A socket that is in the room all along is sent the event ----

  ghost predicate InRoom(s: State, x: SocketId, api: ApiId, chat: Chat) {
    x in s.world.connected && s.world.connected[x] == api && (x, chat) in s.world.joined
  }

  ghost predicate Finds(s: State, c: CallId, x: SocketId, api: ApiId) {
    c in s.calls && (s.calls[c].api == api && s.calls[c].found.Some? ==> x in s.calls[c].found.value)
  }

  /** Every delivery of the entry so far that looked at the socket's instance found the socket. */
  ghost predicate Covers(s: State, r: Request, x: SocketId, api: ApiId) {
    && Finds(s, r.call, x, api)
    && (forall p :: p in r.handlers ==> Finds(s, r.handlers[p], x, api))
    && (r.expected.Some? ==> api in r.expected.value || api == r.api)
    && (r.phase.Accepted? && r.expected.None? ==> r.api == api)
  }

  ghost predicate EntryCovers(s: State, i: nat, x: SocketId, api: ApiId) {
    forall q :: q in s.requests && s.requests[q].entry == i ==> Covers(s, s.requests[q], x, api)
  }

  lemma FindsStep(s: State, m: Move, c: CallId, x: SocketId, api: ApiId)
    requires c in s.calls && c in Next(s, m).calls && InRoom(s, x, api, s.calls[c].event.chat) && Finds(s, c, x, api)
    ensures Finds(Next(s, m), c, x, api)
  {
    hide Next;
    EveryActIsGrounded(s, m, c, x);
  }

  lemma CoversLater(s: State, m: Move, r: Request, x: SocketId, api: ApiId)
    requires Ok(s) && RequestOk(s, r) && InRoom(s, x, api, r.event.chat) && Covers(s, r, x, api)
    ensures Covers(Next(s, m), r, x, api)
  {
    NextKeepsOk(s, m);
    assert r.call in Next(s, m).calls;
    assert forall p :: p in r.handlers ==> r.handlers[p] in Next(s, m).calls;
    hide Next, Ok, Later, Finds;
    FindsStep(s, m, r.call, x, api);
    forall p | p in r.handlers ensures Finds(Next(s, m), r.handlers[p], x, api) {
      FindsStep(s, m, r.handlers[p], x, api);
    }
  }

  /** Whatever instance serves the request next asks the socket's instance, or is it. */
  lemma CoversServed(s: State, q: RequestId, m: RequestMove, x: SocketId, api: ApiId)
    requires q in s.requests && api in s.world.live && Covers(s, s.requests[q], x, api)
    requires forall p :: p in s.requests[q].handlers ==> s.requests[q].handlers[p] in s.calls
    ensures Covers(RequestNext(s, q, m), RequestNext(s, q, m).requests[q], x, api)
  {
  }

  lemma CoversStep(s: State, m: Move, q: RequestId, x: SocketId, api: ApiId)
    requires Ok(s) && q in Next(s, m).requests && InRoom(s, x, api, Next(s, m).requests[q].event.chat)
    requires q in s.requests ==> Covers(s, s.requests[q], x, api)
    ensures Covers(Next(s, m), Next(s, m).requests[q], x, api)
  {
    assert WorldOk(s.world);
    if q in s.requests { assert RequestOk(s, s.requests[q]); }
    if m.ByRequest? && m.q == q {
      hide Ok, RequestNext, Covers;
      CoversServed(s, q, m.request, x, api);
    } else {
      hide Next, Ok;
      OtherRequests(s, m, q);
      if q in s.requests { CoversLater(s, m, s.requests[q], x, api); }
    }
  }

  lemma EntryCoversStep(s: State, m: Move, i: nat, x: SocketId, api: ApiId)
    requires Ok(s) && i < |s.stream| && s.stream[i].Readable? && InRoom(s, x, api, s.stream[i].event.chat)
      && EntryCovers(s, i, x, api)
    ensures EntryCovers(Next(s, m), i, x, api)
  {
    NextKeepsOk(s, m);
    var t := Next(s, m);
    assert t.stream[i] == s.stream[i];
    hide Next, Covers;
    forall q | q in t.requests && t.requests[q].entry == i ensures Covers(t, t.requests[q], x, api) {
      assert RequestOk(t, t.requests[q]);
      CoversStep(s, m, q, x, api);
    }
  }

  /** A connected socket that nobody takes out of the room stays in it. */
  lemma StaysInRoom(s: State, m: Move, x: SocketId, api: ApiId, chat: Chat)
    requires WorldOk(s.world) && InRoom(s, x, api, chat) && m != ByWorld(Leave(x, chat))
      && x in Next(s, m).world.connected
    ensures InRoom(Next(s, m), x, api, chat)
  {
  }

  lemma GoneStaysGone(s: State, moves: seq<Move>, x: SocketId)
    requires Ok(s) && x !in s.world.connected && x in s.world.gone
    ensures x !in Run(s, moves).world.connected
  {
    hide Next, Run;
    RunKeepsOk(s, moves);
  }

  lemma LeavingIsForGood(s: State, m: Move, x: SocketId)
    requires x in s.world.connected && x !in Next(s, m).world.connected
    ensures x in Next(s, m).world.gone
  {
  }

  lemma {:induction false} RunCovers(s: State, moves: seq<Move>, i: nat, x: SocketId, api: ApiId)
    requires Ok(s) && i < |s.stream| && s.stream[i].Readable? && InRoom(s, x, api, s.stream[i].event.chat)
      && EntryCovers(s, i, x, api)
    requires ByWorld(Leave(x, s.stream[i].event.chat)) !in moves && x in Run(s, moves).world.connected
    ensures EntryCovers(Run(s, moves), i, x, api) && InRoom(Run(s, moves), x, api, s.stream[i].event.chat)
    decreases moves
  {
    if moves != [] {
      var m, t := moves[0], Next(s, moves[0]);
      NextKeepsOk(s, m);
      assert t.stream[i] == s.stream[i];
      hide Next, EntryCovers;
      if x !in t.world.connected {
        LeavingIsForGood(s, m, x);
        GoneStaysGone(t, moves[1..], x);
      }
      StaysInRoom(s, m, x, api, s.stream[i].event.chat);
      EntryCoversStep(s, m, i, x, api);
      RunCovers(t, moves[1..], i, x, api);
    }
  }

  lemma OnlyExtendExtends(s: State, m: Move)
    requires !m.Extend?
    ensures Next(s, m).stream == s.stream
  {
  }

  lemma KeepsItsInstance(s: State, m: Move, x: SocketId)
    requires x in s.world.connected && x in Next(s, m).world.connected
    ensures Next(s, m).world.connected[x] == s.world.connected[x]
  {
  }

  lemma ExtendAppends(s: State, raw: Raw)
    ensures Next(s, Extend(raw)).stream == s.stream + [raw]
  {
  }

  /** Nobody has asked for an entry that is only now appended. */
  lemma NewEntryIsCovered(s: State, raw: Raw, i: nat, x: SocketId, api: ApiId)
    requires Ok(s) && |s.stream| <= i
    ensures EntryCovers(Next(s, Extend(raw)), i, x, api)
  {
    forall q | q in s.requests ensures s.requests[q].entry < |s.stream| { assert RequestOk(s, s.requests[q]); }
  }

  /** A socket that every delivery of an acknowledged entry found, and that is still there, was sent the event. */
  lemma CoveredIsSent(s: State, i: nat, x: SocketId, api: ApiId)
    requires Ok(s) && i in s.acked && i < |s.stream| && s.stream[i].Readable?
    requires EntryCovers(s, i, x, api) && InRoom(s, x, api, s.stream[i].event.chat)
    ensures exists c :: CallFor(s, c, s.stream[i].event, api) && x in s.calls[c].sent
  {
    assert WorldOk(s.world) && AckOk(s, i);
    var q := s.acked[i].value;
    var r := s.requests[q];
    assert RequestOk(s, r) && Covers(s, r, x, api);
    AcceptedIsDelivered(s, q);
    hide Ok, RequestOk;
    var c := if r.api == api then r.call else r.handlers[api];
    assert Delivered(s, c, r.event, api);
    assert CallFor(s, c, s.stream[i].event, api);
  }

  /**
   * End to end for one socket: in the room before the entry was first posted, never leaving it, and
   * still connected when the entry has been acknowledged, it was sent the event.
   */
  lemma WhoStaysIsSent(s: State, moves: seq<Move>, i: nat, x: SocketId, api: ApiId)
    requires Reachable(s) && i < |s.stream| && s.stream[i].Readable? && InRoom(s, x, api, s.stream[i].event.chat)
    requires i !in s.acked && forall q :: q in s.requests ==> s.requests[q].entry != i
    requires ByWorld(Leave(x, s.stream[i].event.chat)) !in moves
    requires i in Run(s, moves).acked && x in Run(s, moves).world.connected
    ensures exists c :: CallFor(Run(s, moves), c, s.stream[i].event, api) && x in Run(s, moves).calls[c].sent
  {
    var t := Run(s, moves);
    ReachableOk(s);
    RunKeepsOk(s, moves);
    RunCovers(s, moves, i, x, api);
    assert t.stream[i] == s.stream[i];
    CoveredIsSent(t, i, x, api);
  }
}
