/** The outbox publishers and the delivery system around their shared stream. */
module Pipeline {
  import opened Collections
  import opened OutboxRows
  import Outbox = OutboxRuns
  import Delivery = DeliveryRuns

  /** Both sides see one stream: the publishers append to it, the relays read it. */
  datatype State = State(outbox: Outbox.State, delivery: Delivery.State)

  const START := State(Outbox.START, Delivery.START)

  datatype Move = Publishing(outbox: Outbox.Move) | Delivering(delivery: Delivery.Move)

  ghost function Next(s: State, m: Move): State {
    match m
    case Publishing(move) =>
      var outbox := Outbox.Next(s.outbox, move);
      State(outbox, s.delivery.(stream := outbox.stream))
    case Delivering(move) =>
      if move.Extend? then s else s.(delivery := Delivery.Next(s.delivery, move))
  }

  ghost function Run(s: State, moves: seq<Move>): State
    decreases moves
  {
    if moves == [] then s else Run(Next(s, moves[0]), moves[1..])
  }

  ghost predicate Ok(s: State) {
    && Outbox.Ok(s.outbox)
    && Delivery.Ok(s.delivery)
    && s.delivery.stream == s.outbox.stream
  }

  lemma PublishingExtends(s: Outbox.State, m: Outbox.Move)
    ensures s.stream <= Outbox.Next(s, m).stream
  {
  }

  lemma NextKeepsOk(s: State, m: Move)
    requires Ok(s)
    ensures Ok(Next(s, m))
  {
    hide Outbox.Next, Outbox.Ok, Delivery.Next;
    match m
    case Publishing(move) =>
      Outbox.NextKeepsOk(s.outbox, move);
      PublishingExtends(s.outbox, move);
      Delivery.WorldReplaced(s.delivery, Outbox.Next(s.outbox, move).stream, s.delivery.world);
      assert s.delivery.(stream := Outbox.Next(s.outbox, move).stream, world := s.delivery.world)
        == Next(s, m).delivery;
    case Delivering(move) =>
      if !move.Extend? {
        Delivery.NextKeepsOk(s.delivery, move);
        Delivery.OnlyExtendExtends(s.delivery, move);
      }
  }

  lemma {:induction false} RunKeepsOk(s: State, moves: seq<Move>)
    requires Ok(s)
    ensures Ok(Run(s, moves))
    decreases moves
  {
    hide Next, Ok;
    if moves != [] {
      NextKeepsOk(s, moves[0]);
      RunKeepsOk(Next(s, moves[0]), moves[1..]);
    }
  }

  /**
   * From the outbox row to the sockets: a row recorded as delivered has its own event in the
   * stream, and wherever an entry with that event is acknowledged, the instance that received it
   * and every live peer have delivered it.
   */
  lemma RowsReachSockets(moves: seq<Move>, id: EventId)
    requires id in Run(START, moves).outbox.rows && Run(START, moves).outbox.rows[id].deliveredAt.Some?
    ensures
      var s := Run(START, moves);
      exists event :: s.outbox.rows[id].parsed == Some(event) && event.eventId == id
        && (exists i :: 0 <= i < |s.delivery.stream| && s.delivery.stream[i] == Readable(event))
        && (forall i :: i in s.delivery.acked && i < |s.delivery.stream| && s.delivery.stream[i] == Readable(event) ==>
              exists q :: q in s.delivery.requests && s.delivery.requests[q].entry == i
                && s.delivery.requests[q].event == event && Delivery.DeliveredEverywhere(s.delivery, q))
  {
    hide Next, Run;
    var s := Run(START, moves);
    assert Ok(START);
    RunKeepsOk(START, moves);
    assert Outbox.RowOk(s.outbox, id);
    var event := s.outbox.rows[id].parsed.value;
    forall i | i in s.delivery.acked && i < |s.delivery.stream| && s.delivery.stream[i] == Readable(event)
      ensures exists q :: q in s.delivery.requests && s.delivery.requests[q].entry == i
                && s.delivery.requests[q].event == event && Delivery.DeliveredEverywhere(s.delivery, q)
    {
      Delivery.AcknowledgedIsDelivered(s.delivery, i);
    }
  }
}
