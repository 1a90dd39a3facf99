/**
 * One socket subscribing to one chat while messages are committed and their events are delivered
 * all around it.
 */
module SubscriptionRuns {
  import opened Collections
  import opened OutboxRows
  import opened Gateway
  import M = Messages
  import D = DeliveryRuns

  const PAGE: nat := 100

  /** The socket, the instance it is connected to, the chat it asks for and the cursor it names. */
  datatype Subscriber = Subscriber(x: SocketId, api: D.ApiId, chat: Chat, after: nat)

  /** `seen` is what was committed when the history was read, `from` where the stream ended then. */
  datatype Phase =
    | Idle
    | Authenticated
    | Joined
    | Snapped(history: seq<M.Message>, seen: seq<M.Message>, from: nat)
    | Done(history: seq<M.Message>, seen: seq<M.Message>, from: nat)
    | Rejected

  /** `db` are the committed messages of the chat. */
  datatype State = State(db: seq<M.Message>, delivery: D.State, phase: Phase)

  const START := State([], D.START, Phase.Idle)

  datatype Move =
    | Commit(message: M.Message)
    | Around(move: D.Move)
    | Authenticate(valid: bool)
    | Join
    | Snapshot
    | Recheck(valid: bool)
    | Fail

  predicate IsEventOf(e: Event, m: M.Message) {
    e.sequence == m.sequence && e.messageId == m.id
  }

  /** The outbox row is committed with its message, so an event of the chat enters the stream only later. */
  ghost predicate Backed(k: Subscriber, db: seq<M.Message>, raw: Raw) {
    raw.Readable? && raw.event.chat == k.chat ==> exists m :: m in db && IsEventOf(raw.event, m)
  }

  function ReadHistory(db: seq<M.Message>, after: nat): seq<M.Message> {
    M.Above(db, after)[..Min(|M.Above(db, after)|, PAGE)]
  }

  ghost function World(s: State, m: D.WorldMove): State {
    s.(delivery := D.Next(s.delivery, D.ByWorld(m)))
  }

  ghost function Reject(k: Subscriber, s: State, disconnect: bool): State {
    var left := World(s, D.Leave(k.x, k.chat));
    (if disconnect then World(left, D.Disconnect(k.x)) else left).(phase := Rejected)
  }

  ghost function Next(k: Subscriber, s: State, m: Move): State {
    match m
    case Commit(message) =>
      if s.db != [] && message.sequence <= M.LastSequence(s.db, 0) then s else s.(db := s.db + [message])
    case Around(move) =>
      if move.Extend? && !Backed(k, s.db, move.raw) then s else s.(delivery := D.Next(s.delivery, move))
    case Authenticate(valid) =>
      if !s.phase.Idle? || k.x !in s.delivery.world.connected || s.delivery.world.connected[k.x] != k.api then s
      else if valid && k.x in s.delivery.world.sessions then s.(phase := Authenticated)
      else World(s, D.Disconnect(k.x)).(phase := Rejected)
    case Join =>
      if !s.phase.Authenticated? then s else World(s, D.Join(k.x, k.chat)).(phase := Joined)
    case Snapshot =>
      if !s.phase.Joined? then s
      else if (k.x, k.chat) in s.delivery.world.members then
        s.(phase := Snapped(ReadHistory(s.db, k.after), s.db, |s.delivery.stream|))
      else Reject(k, s, false)
    case Recheck(valid) =>
      if !s.phase.Snapped? then s
      else if valid && k.x in s.delivery.world.sessions then s.(phase := Done(s.phase.history, s.phase.seen,
        s.phase.from))
      else Reject(k, s, true)
    case Fail =>
      if s.phase.Authenticated? || s.phase.Joined? || s.phase.Snapped? then Reject(k, s, false) else s
  }

  ghost function Run(k: Subscriber, s: State, moves: seq<Move>): State
    decreases moves
  {
    if moves == [] then s else Run(k, Next(k, s, moves[0]), moves[1..])
  }

  // ---- The invariant ----

  ghost predicate HasJoined(p: Phase) {
    p.Joined? || p.Snapped? || p.Done?
  }

  ghost predicate HasRead(p: Phase) {
    p.Snapped? || p.Done?
  }

  ghost predicate StreamOk(k: Subscriber, s: State) {
    && D.Ok(s.delivery)
    && M.Ascending(s.db)
    && forall i :: 0 <= i < |s.delivery.stream| ==> Backed(k, s.db, s.delivery.stream[i])
  }

  /** A subscribing socket is where it says, or has disconnected for good. */
  ghost predicate SocketOk(k: Subscriber, s: State) {
    && (!s.phase.Idle? ==> k.x in s.delivery.world.connected || k.x in s.delivery.world.gone)
    && (!s.phase.Idle? && k.x in s.delivery.world.connected ==> s.delivery.world.connected[k.x] == k.api)
  }

  /** Once it has joined, the socket is in the room as long as it is connected. */
  ghost predicate InPlace(k: Subscriber, s: State) {
    HasJoined(s.phase) && k.x in s.delivery.world.connected ==> (k.x, k.chat) in s.delivery.world.joined
  }

  ghost predicate SnapshotOk(k: Subscriber, s: State) {
    HasRead(s.phase) ==>
      && s.phase.seen <= s.db
      && s.phase.history == ReadHistory(s.phase.seen, k.after)
      && s.phase.from <= |s.delivery.stream|
      && forall i :: 0 <= i < s.phase.from ==> Backed(k, s.phase.seen, s.delivery.stream[i])
  }

  ghost predicate IsNew(k: Subscriber, s: State, i: nat)
    requires HasRead(s.phase)
  {
    s.phase.from <= i < |s.delivery.stream| && s.delivery.stream[i].Readable?
      && s.delivery.stream[i].event.chat == k.chat
  }

  /** Every event that came into the stream after the history was read finds the socket in the room. */
  ghost predicate NewCovered(k: Subscriber, s: State) {
    HasRead(s.phase) && k.x in s.delivery.world.connected ==>
      forall i: nat :: IsNew(k, s, i) ==> D.EntryCovers(s.delivery, i, k.x, k.api)
  }

  /** What every move keeps, whoever takes the socket out of the room. */
  ghost predicate Base(k: Subscriber, s: State) {
    StreamOk(k, s) && SocketOk(k, s) && SnapshotOk(k, s)
  }

  ghost predicate Ok(k: Subscriber, s: State) {
    Base(k, s) && InPlace(k, s) && NewCovered(k, s)
  }

  /** Somebody takes the socket out of the room: another subscription of it that fails. */
  function LeaveMove(k: Subscriber): Move {
    Around(D.ByWorld(D.Leave(k.x, k.chat)))
  }

  lemma CommitKeepsBase(k: Subscriber, s: State, message: M.Message)
    requires Base(k, s)
    ensures Base(k, Next(k, s, Commit(message)))
  {
    hide D.Ok, D.EntryCovers;
    var t := Next(k, s, Commit(message));
    forall i | 0 <= i < |s.delivery.stream| ensures Backed(k, t.db, s.delivery.stream[i]) {
      assert Backed(k, s.db, s.delivery.stream[i]);
    }
  }

  /** What any move of the delivery system does to the socket, and to the stream. */
  lemma AroundTheSocket(s: D.State, m: D.Move, k: Subscriber)
    requires D.Ok(s)
    ensures
      var t := D.Next(s, m);
      && D.Ok(t) && s.stream <= t.stream && s.world.gone <= t.world.gone
      && (!m.Extend? ==> t.stream == s.stream)
      && (k.x in s.world.connected && k.x !in t.world.connected ==> k.x in t.world.gone)
      && (k.x in t.world.connected && k.x !in s.world.connected ==> k.x !in s.world.gone)
      && (k.x in t.world.connected && k.x in s.world.connected ==> t.world.connected[k.x] == s.world.connected[k.x])
      && (m != D.ByWorld(D.Leave(k.x, k.chat)) && k.x in t.world.connected && k.x in s.world.connected ==>
            (k.x, k.chat) in s.world.joined ==> (k.x, k.chat) in t.world.joined)
  {
    D.NextKeepsOk(s, m);
    if m.Extend? { D.ExtendAppends(s, m.raw); } else { D.OnlyExtendExtends(s, m); }
    hide D.Next;
    var t := D.Next(s, m);
    if k.x in s.world.connected {
      if k.x in t.world.connected {
        D.KeepsItsInstance(s, m, k.x);
        if (k.x, k.chat) in s.world.joined && m != D.ByWorld(D.Leave(k.x, k.chat)) {
          D.StaysInRoom(s, m, k.x, s.world.connected[k.x], k.chat);
        }
      } else {
        D.LeavingIsForGood(s, m, k.x);
      }
    }
  }

  lemma AroundKeepsBase(k: Subscriber, s: State, m: D.Move)
    requires Base(k, s) && (m.Extend? ==> Backed(k, s.db, m.raw))
    ensures Base(k, s.(delivery := D.Next(s.delivery, m)))
  {
    var t := s.(delivery := D.Next(s.delivery, m));
    AroundTheSocket(s.delivery, m, k);
    if m.Extend? { D.ExtendAppends(s.delivery, m.raw); }
    hide D.Ok, D.EntryCovers, D.Next, Backed, NewCovered;
    assert forall i :: 0 <= i < |s.delivery.stream| ==> t.delivery.stream[i] == s.delivery.stream[i];
  }

  /** A rejected subscription leaves the room, and has no stake in it. */
  lemma RejectedIsOk(k: Subscriber, s: State, disconnect: bool)
    requires Base(k, s) && !s.phase.Idle?
    ensures Base(k, Reject(k, s, disconnect))
  {
    D.NextKeepsOk(s.delivery, D.ByWorld(D.Leave(k.x, k.chat)));
    var left := World(s, D.Leave(k.x, k.chat));
    D.NextKeepsOk(left.delivery, D.ByWorld(D.Disconnect(k.x)));
    hide D.Ok, D.EntryCovers, Backed;
  }

  lemma NextKeepsBase(k: Subscriber, s: State, m: Move)
    requires Base(k, s)
    ensures Base(k, Next(k, s, m))
  {
    hide D.Ok, D.EntryCovers, D.Next, Backed;
    match m
    case Commit(message) => CommitKeepsBase(k, s, message);
    case Around(move) => if !move.Extend? || Backed(k, s.db, move.raw) { AroundKeepsBase(k, s, move); }
    case Authenticate(valid) => AuthenticateKeepsBase(k, s, valid);
    case Join => if s.phase.Authenticated? { AroundKeepsBase(k, s, D.ByWorld(D.Join(k.x, k.chat))); }
    case Snapshot =>
      if s.phase.Joined? && (k.x, k.chat) !in s.delivery.world.members { RejectedIsOk(k, s, false); }
    case Recheck(valid) =>
      if s.phase.Snapped? && !(valid && k.x in s.delivery.world.sessions) { RejectedIsOk(k, s, true); }
    case Fail =>
      if s.phase.Authenticated? || s.phase.Joined? || s.phase.Snapped? { RejectedIsOk(k, s, false); }
  }

  lemma AuthenticateKeepsBase(k: Subscriber, s: State, valid: bool)
    requires Base(k, s)
    ensures Base(k, Next(k, s, Authenticate(valid)))
  {
    hide D.Ok, D.EntryCovers, D.Next, Backed;
    if Next(k, s, Authenticate(valid)).phase.Rejected? && s.phase.Idle? {
      AroundKeepsBase(k, s, D.ByWorld(D.Disconnect(k.x)));
      AroundTheSocket(s.delivery, D.ByWorld(D.Disconnect(k.x)), k);
    }
  }

  /** Whatever a move does, it leaves a socket that is in place covered for the events it has missed so far. */
  lemma CoverStep(k: Subscriber, s: State, m: D.Move)
    requires Ok(k, s) && HasRead(s.phase)
    ensures NewCovered(k, s.(delivery := D.Next(s.delivery, m)))
  {
    var t := s.(delivery := D.Next(s.delivery, m));
    AroundTheSocket(s.delivery, m, k);
    hide D.Ok, D.EntryCovers, D.Next, Backed;
    if k.x in t.delivery.world.connected {
      forall i: nat | IsNew(k, t, i) ensures D.EntryCovers(t.delivery, i, k.x, k.api) {
        if i < |s.delivery.stream| {
          assert t.delivery.stream[i] == s.delivery.stream[i];
          assert IsNew(k, s, i);
          D.EntryCoversStep(s.delivery, m, i, k.x, k.api);
        } else {
          assert m.Extend?;
          D.NewEntryIsCovered(s.delivery, m.raw, i, k.x, k.api);
        }
      }
    }
  }

  lemma NextKeepsCover(k: Subscriber, s: State, m: Move)
    requires Ok(k, s)
    ensures NewCovered(k, Next(k, s, m))
  {
    hide D.Ok, D.EntryCovers, D.Next, Backed;
    if m.Around? && HasRead(s.phase) {
      CoverStep(k, s, m.move);
    }
  }

  /** Nobody but `LeaveMove` takes a subscribed socket out of the room. */
  lemma StaysInPlace(k: Subscriber, s: State, m: Move)
    requires Base(k, s) && InPlace(k, s) && m != LeaveMove(k)
    ensures InPlace(k, Next(k, s, m))
  {
    if m.Around? { AroundTheSocket(s.delivery, m.move, k); }
    if m.Join? {
      assert D.WorldOk(s.delivery.world);
      hide D.Ok, D.EntryCovers, Backed;
    } else {
      hide D.Ok, D.EntryCovers, D.Next, Backed;
    }
  }

  lemma NextKeepsOk(k: Subscriber, s: State, m: Move)
    requires Ok(k, s) && InPlace(k, Next(k, s, m))
    ensures Ok(k, Next(k, s, m))
  {
    hide Base, InPlace, NewCovered, Next;
    NextKeepsBase(k, s, m);
    NextKeepsCover(k, s, m);
  }

  lemma {:induction false} RunLast(k: Subscriber, s: State, moves: seq<Move>)
    requires moves != []
    ensures Run(k, s, moves) == Next(k, Run(k, s, moves[..|moves| - 1]), moves[|moves| - 1])
    decreases moves
  {
    hide Next;
    if |moves| > 1 {
      RunLast(k, Next(k, s, moves[0]), moves[1..]);
      assert moves[1..][..|moves| - 2] == moves[..|moves| - 1][1..];
    }
  }

  lemma {:induction false} RunKeepsBase(k: Subscriber, s: State, moves: seq<Move>)
    requires Base(k, s)
    ensures Base(k, Run(k, s, moves))
    decreases moves
  {
    hide Base, Next;
    if moves != [] {
      NextKeepsBase(k, s, moves[0]);
      RunKeepsBase(k, Next(k, s, moves[0]), moves[1..]);
    }
  }

  lemma StartIsOk(k: Subscriber)
    ensures Ok(k, START)
  {
  }

  /** At no point of the run is the socket, once joined, found connected and out of the room. */
  ghost predicate AlwaysThere(k: Subscriber, moves: seq<Move>) {
    forall n: nat :: n <= |moves| ==> InPlace(k, Run(k, START, moves[..n]))
  }

  lemma ShorterIsThere(k: Subscriber, moves: seq<Move>, n: nat)
    requires AlwaysThere(k, moves) && n <= |moves|
    ensures AlwaysThere(k, moves[..n])
  {
    hide InPlace, Run;
    forall i: nat | i <= n ensures InPlace(k, Run(k, START, moves[..n][..i])) {
      assert moves[..n][..i] == moves[..i];
    }
  }

  lemma {:induction false} RunKeepsOk(k: Subscriber, moves: seq<Move>)
    requires AlwaysThere(k, moves)
    ensures Ok(k, Run(k, START, moves))
    decreases |moves|
  {
    hide Ok, Next, AlwaysThere;
    if moves == [] {
      StartIsOk(k);
    } else {
      var n := |moves| - 1;
      ShorterIsThere(k, moves, n);
      RunKeepsOk(k, moves[..n]);
      RunLast(k, START, moves);
      ThereAtTheEnd(k, moves);
      NextKeepsOk(k, Run(k, START, moves[..n]), moves[n]);
    }
  }

  lemma ThereAtTheEnd(k: Subscriber, moves: seq<Move>)
    requires AlwaysThere(k, moves)
    ensures InPlace(k, Run(k, START, moves))
  {
    hide InPlace, Run;
    assert moves[..|moves|] == moves;
  }

  lemma MoreIsThere(k: Subscriber, moves: seq<Move>, m: Move)
    requires AlwaysThere(k, moves) && InPlace(k, Run(k, START, moves + [m]))
    ensures AlwaysThere(k, moves + [m])
  {
    hide InPlace, Run;
    var all := moves + [m];
    forall n: nat | n <= |all| ensures InPlace(k, Run(k, START, all[..n])) {
      assert n <= |moves| ==> all[..n] == moves[..n];
      assert n > |moves| ==> all[..n] == all;
    }
  }

  /** As long as nobody takes the socket out of the room it stays there. */
  lemma {:induction false} NobodyLeaves(k: Subscriber, moves: seq<Move>, more: seq<Move>)
    requires AlwaysThere(k, moves) && LeaveMove(k) !in more
    ensures AlwaysThere(k, moves + more)
    decreases |more|
  {
    hide AlwaysThere, Next, Run, InPlace, Ok, Base;
    if more == [] {
      assert moves + more == moves;
    } else {
      var n := |more| - 1;
      var before, m := moves + more[..n], more[n];
      NobodyLeaves(k, moves, more[..n]);
      RunKeepsOk(k, before);
      var s := Run(k, START, before);
      assert Base(k, s) && InPlace(k, s) by { OkParts(k, s); }
      StaysInPlace(k, s, m);
      RunLast(k, START, before + [m]);
      assert (before + [m])[..|before|] == before && (before + [m])[|before|] == m;
      MoreIsThere(k, before, m);
      assert before + [m] == moves + more;
    }
  }

  lemma OkParts(k: Subscriber, s: State)
    requires Ok(k, s)
    ensures Base(k, s) && InPlace(k, s) && NewCovered(k, s)
  {
  }

  // ---- Nothing is lost ----

  predicate IsRawOf(k: Subscriber, raw: Raw, m: M.Message) {
    raw.Readable? && raw.event.chat == k.chat && IsEventOf(raw.event, m)
  }

  /** Wherever an event of the message has been acknowledged, the socket was sent it. */
  ghost predicate SentWhereAcknowledged(k: Subscriber, s: State, m: M.Message) {
    forall i :: i in s.delivery.acked && i < |s.delivery.stream| && IsRawOf(k, s.delivery.stream[i], m) ==>
      exists c :: D.CallFor(s.delivery, c, s.delivery.stream[i].event, k.api) && k.x in s.delivery.calls[c].sent
  }

  /** Sequences tell messages apart, so an event backed by some message is backed by its own. */
  lemma BackedNames(k: Subscriber, seen: seq<M.Message>, db: seq<M.Message>, raw: Raw, m: M.Message)
    requires M.Ascending(db) && seen <= db && m in db && IsRawOf(k, raw, m)
    ensures Backed(k, seen, raw) ==> m in seen
  {
    if Backed(k, seen, raw) {
      var other :| other in seen && IsEventOf(raw.event, other);
      var i :| 0 <= i < |seen| && seen[i] == other;
      var j :| 0 <= j < |db| && db[j] == m;
      assert db[i] == other;
    }
  }

  lemma LaterIsSent(k: Subscriber, s: State, m: M.Message)
    requires Ok(k, s) && HasRead(s.phase) && k.x in s.delivery.world.connected && m in s.db && m !in s.phase.seen
    ensures SentWhereAcknowledged(k, s, m)
  {
    forall i | i in s.delivery.acked && i < |s.delivery.stream| && IsRawOf(k, s.delivery.stream[i], m)
      ensures exists c :: D.CallFor(s.delivery, c, s.delivery.stream[i].event, k.api) && k.x in s.delivery.calls[c].sent
    {
      BackedNames(k, s.phase.seen, s.db, s.delivery.stream[i], m);
      assert IsNew(k, s, i);
      hide D.Ok, D.EntryCovers;
      D.CoveredIsSent(s.delivery, i, k.x, k.api);
    }
  }

  /**
   * Every message above the cursor is in the page read, or beyond a full page, or committed later; and
   * then above the next cursor.
   */
  lemma PageOrBeyond(seen: seq<M.Message>, db: seq<M.Message>, after: nat, m: M.Message)
    requires M.Ascending(db) && seen <= db && m in db && m.sequence > after
    ensures
      var history := ReadHistory(seen, after);
      || m in history
      || (&& m.sequence > M.LastSequence(history, after)
          && (m in seen ==> |history| == PAGE))
  {
    hide M.Above;
    var newer := M.Above(seen, after);
    var history := ReadHistory(seen, after);
    var j := M.AboveIsSuffix(seen, after);
    var n :| 0 <= n < |db| && db[n] == m;
    assert forall i :: 0 <= i < |seen| ==> seen[i] == db[i];
    if n < |seen| {
      assert seen[n] == m && n >= j;
      assert newer[n - j] == m;
      if n - j < |history| { assert history[n - j] == m; }
    }
    if history != [] { assert history[|history| - 1] == seen[j + |history| - 1]; }
  }

  /** The message is in the returned history, or above the returned cursor and, unless that page was full, sent. */
  ghost predicate Kept(k: Subscriber, s: State, m: M.Message)
    requires s.phase.Done?
  {
    || m in s.phase.history
    || (&& m.sequence > M.LastSequence(s.phase.history, k.after)
        && ((m in s.phase.seen && |s.phase.history| == PAGE) || SentWhereAcknowledged(k, s, m)))
  }

  /**
   * Joining before reading loses nothing, provided nobody takes the socket out of the room after it
   * joined: once a subscription has succeeded, every message above the cursor it named is in the
   * returned history; or it lies above the returned cursor, and either was already committed when a
   * full page was read, or its event, wherever acknowledged, was sent to the socket.
   */
  lemma JoiningFirstLosesNothing(k: Subscriber, moves: seq<Move>, m: M.Message)
    requires AlwaysThere(k, moves)
    requires
      var s := Run(k, START, moves);
      s.phase.Done? && k.x in s.delivery.world.connected && m in s.db && m.sequence > k.after
    ensures Kept(k, Run(k, START, moves), m)
  {
    hide Next, Run, D.Ok, D.EntryCovers;
    var s := Run(k, START, moves);
    RunKeepsOk(k, moves);
    PageOrBeyond(s.phase.seen, s.db, k.after, m);
    if m !in s.phase.seen { LaterIsSent(k, s, m); }
  }

  /** The room's joins after this socket's, or after its leaving. */
  ghost predicate OnlyThisPair(before: D.World, after: D.World, k: Subscriber, inside: bool) {
    && after == before.(joined := after.joined)
    && forall x, chat :: (x, chat) in after.joined <==>
         if x == k.x && chat == k.chat then inside else (x, chat) in before.joined
  }

  /**
   * Left alone, a subscription does what the gateway's method does: with a live session and membership
   * it ends in the room with the page above its cursor; without membership it ends rejected and out of
   * the room; without a session it ends disconnected; and nobody else is touched.
   */
  lemma SubscribingAlone(k: Subscriber, s: State)
    requires s.phase.Idle? && k.x in s.delivery.world.connected && s.delivery.world.connected[k.x] == k.api
    ensures
      var t := Run(k, s, [Authenticate(true), Join, Snapshot, Recheck(true)]);
      var w := s.delivery.world;
      && t.db == s.db && t.delivery == s.delivery.(world := t.delivery.world)
      && if k.x !in w.sessions then
           && t.phase == Rejected && t.delivery.world.connected == w.connected - {k.x}
           && t.delivery.world.joined == w.joined
         else if (k.x, k.chat) !in w.members then
           t.phase == Rejected && OnlyThisPair(w, t.delivery.world, k, false)
         else
           && t.phase == Done(ReadHistory(s.db, k.after), s.db, |s.delivery.stream|)
           && OnlyThisPair(w, t.delivery.world, k, true)
  {
    hide Run;
    FourMoves(k, s, Authenticate(true), Join, Snapshot, Recheck(true));
  }

  lemma FourMoves(k: Subscriber, s: State, a: Move, b: Move, c: Move, d: Move)
    ensures Run(k, s, [a, b, c, d]) == Next(k, Next(k, Next(k, Next(k, s, a), b), c), d)
  {
    hide Next;
    assert [a, b, c, d][1..] == [b, c, d] && [b, c, d][1..] == [c, d] && [c, d][1..] == [d] && [d][1..] == [];
    var s1 := Next(k, s, a);
    var s2 := Next(k, s1, b);
    var s3 := Next(k, s2, c);
    assert Run(k, s3, [d]) == Next(k, s3, d);
    assert Run(k, s2, [c, d]) == Run(k, s3, [d]);
    assert Run(k, s1, [b, c, d]) == Run(k, s2, [c, d]);
  }
}
