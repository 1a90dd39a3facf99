/**
 * Exactly when a subscription can lose a message: when another subscription of the same socket
 * takes it out of the room after it has joined.
 */
module SubscriptionLoss {
  import opened Collections
  import opened OutboxRows
  import opened Gateway
  import opened SubscriptionRuns
  import M = Messages
  import D = DeliveryRuns
  import opened DeliveryProgress

  // ---- An event that is delivered while the socket is out of the room ----

  function Arounds(moves: seq<D.Move>): seq<Move> {
    seq(|moves|, i requires 0 <= i < |moves| => Around(moves[i]))
  }

  lemma {:induction false} RunJoined(k: Subscriber, s: State, a: seq<Move>, b: seq<Move>)
    ensures Run(k, s, a + b) == Run(k, Run(k, s, a), b)
    decreases a
  {
    hide Next;
    if a == [] {
      assert a + b == b;
    } else {
      assert (a + b)[1..] == a[1..] + b;
      RunJoined(k, Next(k, s, a[0]), a[1..], b);
    }
  }

  lemma {:induction false} RunAround(k: Subscriber, s: State, moves: seq<D.Move>)
    requires forall j :: 0 <= j < |moves| ==> !moves[j].Extend?
    ensures Run(k, s, Arounds(moves)) == s.(delivery := D.Run(s.delivery, moves))
    decreases moves
  {
    hide D.Next;
    if moves != [] {
      assert Arounds(moves)[1..] == Arounds(moves[1..]);
      assert Next(k, s, Around(moves[0])) == s.(delivery := D.Next(s.delivery, moves[0]));
      RunAround(k, s.(delivery := D.Next(s.delivery, moves[0])), moves[1..]);
    }
  }

  lemma OneMove(k: Subscriber, s: State, m: Move)
    ensures Run(k, s, [m]) == Next(k, s, m)
  {
    assert [m][1..] == [];
  }

  /** Out of the room after joining, and still connected. */
  ghost predicate Out(k: Subscriber, s: State) {
    Base(k, s) && HasJoined(s.phase) && k.x in s.delivery.world.connected
      && (k.x, k.chat) !in s.delivery.world.joined
  }

  lemma NotInPlaceIsOut(k: Subscriber, s: State)
    requires Base(k, s) && !InPlace(k, s)
    ensures Out(k, s)
  {
  }

  /** A subscription that is out of the room can still read its page. */
  lemma ReadsOn(k: Subscriber, s: State) returns (more: seq<Move>)
    requires Out(k, s)
    ensures LeaveMove(k) !in more && Out(k, Run(k, s, more)) && HasRead(Run(k, s, more).phase)
  {
    hide D.Ok, D.EntryCovers, Backed;
    more := [];
    if s.phase.Joined? {
      var admitted := Around(D.ByWorld(D.SetMember(k.x, k.chat, true)));
      more := [admitted, Snapshot];
      NextKeepsBase(k, s, admitted);
      NextKeepsBase(k, Next(k, s, admitted), Snapshot);
      assert more[1..] == [Snapshot];
      OneMove(k, Next(k, s, admitted), Snapshot);
    }
  }

  /** And, once it has, succeed. */
  lemma Succeeds(k: Subscriber, s: State) returns (more: seq<Move>)
    requires Out(k, s) && HasRead(s.phase)
    ensures LeaveMove(k) !in more && Out(k, Run(k, s, more)) && Run(k, s, more).phase.Done?
  {
    hide D.Ok, D.EntryCovers, Backed;
    more := [];
    if s.phase.Snapped? {
      var renewed := Around(D.ByWorld(D.SetSession(k.x, true)));
      more := [renewed, Recheck(true)];
      NextKeepsBase(k, s, renewed);
      NextKeepsBase(k, Next(k, s, renewed), Recheck(true));
      assert more[1..] == [Recheck(true)];
      OneMove(k, Next(k, s, renewed), Recheck(true));
    }
  }

  /** Nothing is lost: every message above the cursor is kept, once the subscription has succeeded. */
  ghost predicate NothingLost(k: Subscriber, s: State) {
    s.phase.Done? && k.x in s.delivery.world.connected ==>
      forall m :: m in s.db && m.sequence > k.after ==> Kept(k, s, m)
  }

  /** Nobody else is connected, and nothing else changed. */
  lemma Emptied(k: Subscriber, s: State) returns (more: seq<Move>)
    requires Out(k, s)
    ensures LeaveMove(k) !in more
    ensures
      var t := Run(k, s, more);
      && Out(k, t) && t.phase == s.phase && t.db == s.db
      && t.delivery.world.live == {k.api} && D.RoomAt(t.delivery.world, k.api, k.chat) == {}
  {
    hide D.Next, D.Run, Run, Next, Backed, D.EntryCovers;
    assert D.WorldOk(s.delivery.world);
    var moves := Clearing(s.delivery, k.x, k.api);
    more := Arounds(moves);
    RunAround(k, s, moves);
    RunKeepsBase(k, s, more);
  }

  function NextMessage(k: Subscriber, db: seq<M.Message>): M.Message {
    var last := M.LastSequence(db, 0);
    M.Message(0, 1 + if last < k.after then k.after else last, 0, "")
  }

  function EventOf(k: Subscriber, m: M.Message, id: EventId): Event {
    Event(id, k.chat, m.sequence, m.id)
  }

  /** A new message is committed and its event enters the stream. */
  lemma Appended(k: Subscriber, s: State, id: EventId)
    requires Base(k, s)
    ensures
      var m := NextMessage(k, s.db);
      var raw := Readable(EventOf(k, m, id));
      Run(k, s, [Commit(m), Around(D.Extend(raw))])
        == s.(db := s.db + [m], delivery := s.delivery.(stream := s.delivery.stream + [raw]))
  {
    hide Base;
    var m := NextMessage(k, s.db);
    var raw := Readable(EventOf(k, m, id));
    var committed := Next(k, s, Commit(m));
    assert committed == s.(db := s.db + [m]);
    assert m in committed.db by { assert (s.db + [m])[|s.db|] == m; }
    assert IsEventOf(raw.event, m);
    assert Backed(k, committed.db, raw);
    assert [Commit(m), Around(D.Extend(raw))][1..] == [Around(D.Extend(raw))];
    OneMove(k, committed, Around(D.Extend(raw)));
  }

  /** No call has the event yet. */
  ghost predicate UnknownTo(calls: map<D.CallId, D.Call>, id: EventId) {
    forall c :: c in calls ==> calls[c].event.eventId != id
  }

  lemma NewEventId(calls: map<D.CallId, D.Call>) returns (id: EventId)
    ensures UnknownTo(calls, id)
  {
    var used := set c | c in calls :: calls[c].event.eventId;
    id := NewId(used);
    forall c | c in calls ensures calls[c].event.eventId != id {
      assert calls[c].event.eventId in used;
    }
  }

  /** The last message is newer than everything read, and its acknowledged event went to nobody. */
  lemma IsLost(k: Subscriber, s: State, m: M.Message, i: nat)
    requires Base(k, s) && s.phase.Done? && k.x in s.delivery.world.connected
    requires m in s.db && m.sequence > k.after && m !in s.phase.seen
    requires i in s.delivery.acked && i < |s.delivery.stream| && IsRawOf(k, s.delivery.stream[i], m)
    requires forall c :: c in s.delivery.calls && s.delivery.calls[c].event == s.delivery.stream[i].event ==>
      s.delivery.calls[c].sent == {}
    ensures !NothingLost(k, s)
  {
    hide D.Ok, D.EntryCovers, Backed;
    HistoryIsSeen(s.phase.seen, k.after, m);
    assert !SentWhereAcknowledged(k, s, m);
    assert !Kept(k, s, m);
  }

  lemma HistoryIsSeen(seen: seq<M.Message>, after: nat, m: M.Message)
    requires M.Ascending(seen)
    ensures m in ReadHistory(seen, after) ==> m in seen
  {
    hide M.Above;
    var j := M.AboveIsSuffix(seen, after);
    if n :| 0 <= n < |ReadHistory(seen, after)| && ReadHistory(seen, after)[n] == m {
      assert seen[j + n] == m;
    }
  }

  lemma NewestIsUnseen(k: Subscriber, s: State, m: M.Message)
    requires Base(k, s) && HasRead(s.phase) && m == NextMessage(k, s.db)
    ensures m !in s.phase.seen && m.sequence > k.after
  {
    hide D.Ok, Backed;
    forall n | 0 <= n < |s.phase.seen| ensures s.phase.seen[n].sequence < m.sequence {
      assert s.db[n] == s.phase.seen[n];
    }
  }

  /** The next message is lost. */
  lemma LosesTheNext(k: Subscriber, s: State) returns (more: seq<Move>)
    requires Out(k, s) && s.phase.Done?
    requires s.delivery.world.live == {k.api} && D.RoomAt(s.delivery.world, k.api, k.chat) == {}
    ensures LeaveMove(k) !in more && !NothingLost(k, Run(k, s, more))
  {
    hide D.Next, D.Run, Run, Next, D.RoomAt, D.Ok, D.EntryCovers, Backed;
    var m, i := NextMessage(k, s.db), |s.delivery.stream|;
    var id := NewEventId(s.delivery.calls);
    var raw := Readable(EventOf(k, m, id));
    Appended(k, s, id);
    var first := [Commit(m), Around(D.Extend(raw))];
    var t := Run(k, s, first);
    assert t.delivery.stream[i] == raw;
    var moves := DeliveredUnseen(t.delivery, k.api, i);
    RunAround(k, t, moves);
    RunJoined(k, s, first, Arounds(moves));
    more := first + Arounds(moves);
    RunKeepsBase(k, s, more);
    NewestIsUnseen(k, s, m);
    IsLost(k, Run(k, s, more), m, i);
  }

  /** From any point at which the socket is out of the room the run can go on to a loss. */
  lemma OutLoses(k: Subscriber, s: State) returns (more: seq<Move>)
    requires Out(k, s)
    ensures LeaveMove(k) !in more && !NothingLost(k, Run(k, s, more))
  {
    hide Run, Out, NothingLost, D.RoomAt;
    var a := ReadsOn(k, s);
    var s1 := Run(k, s, a);
    var b := Succeeds(k, s1);
    var s2 := Run(k, s1, b);
    var c := Emptied(k, s2);
    var s3 := Run(k, s2, c);
    var d := LosesTheNext(k, s3);
    more := ((a + b) + c) + d;
    RunJoined(k, s, a, b);
    RunJoined(k, s, a + b, c);
    RunJoined(k, s, (a + b) + c, d);
  }

  /** However the run goes on from any of its points, as long as nobody takes the socket out, nothing is lost. */
  ghost predicate NeverLoses(k: Subscriber, moves: seq<Move>) {
    forall n: nat, more: seq<Move> :: n <= |moves| && LeaveMove(k) !in more ==>
      NothingLost(k, Run(k, START, moves[..n] + more))
  }

  lemma ThereLosesNothing(k: Subscriber, moves: seq<Move>)
    requires AlwaysThere(k, moves)
    ensures NothingLost(k, Run(k, START, moves))
  {
    hide Run, Kept, AlwaysThere;
    var s := Run(k, START, moves);
    if s.phase.Done? && k.x in s.delivery.world.connected {
      forall m | m in s.db && m.sequence > k.after ensures Kept(k, s, m) {
        JoiningFirstLosesNothing(k, moves, m);
      }
    }
  }

  /**
   * Exactly when nothing can be lost, with any number of subscriptions of the one socket at work: no
   * run that goes on from here or from an earlier point loses a message if and only if at no point
   * the socket, having joined, was connected but out of the room. Joining again later does not mend
   * it: what was delivered in between is gone.
   */
  lemma NothingIsLostExactlyWhen(k: Subscriber, moves: seq<Move>)
    ensures AlwaysThere(k, moves) <==> NeverLoses(k, moves)
  {
    hide Run, NothingLost, InPlace, Base, Out;
    if AlwaysThere(k, moves) {
      forall n: nat, more: seq<Move> | n <= |moves| && LeaveMove(k) !in more
        ensures NothingLost(k, Run(k, START, moves[..n] + more))
      {
        ShorterIsThere(k, moves, n);
        NobodyLeaves(k, moves[..n], more);
        ThereLosesNothing(k, moves[..n] + more);
      }
    } else {
      var n: nat :| n <= |moves| && !InPlace(k, Run(k, START, moves[..n]));
      var s := Run(k, START, moves[..n]);
      assert Base(k, START) by { StartIsOk(k); OkParts(k, START); }
      RunKeepsBase(k, START, moves[..n]);
      NotInPlaceIsOut(k, s);
      var more := OutLoses(k, s);
      RunJoined(k, START, moves[..n], more);
    }
  }
}
