/**
 * Any number of publishers over one outbox and one stream, stopping at every await: claims may be
 * taken over, answers lost, publishers may crash at any point.
 */
module OutboxRuns {
  import opened Collections
  import opened OutboxRows
  import P = OutboxPublishing

  type PublisherId = nat

  /** What a busy publisher has done with the claim it holds; idle publishers are not listed. */
  datatype Phase =
    | HasClaim(claim: Claimed)
    | Appended(claim: Claimed)
    | GivingUp(claim: Claimed)

  /** `tokens` are all claim tokens ever drawn. */
  datatype State = State(
    rows: Rows, stream: seq<Raw>, publishers: map<PublisherId, Phase>, clock: Time, tokens: set<Token>)

  const START: State := State(map[], [], map[], 0, {})

  datatype Move =
    | Insert(id: EventId, row: Row)
    | ClaimMove(p: PublisherId, token: Token, locked: set<EventId>, now: Time, stamp: Time)
    | Append(p: PublisherId, lost: bool)
    | Mark(p: PublisherId, now: Time, lost: bool)
    | GiveUp(p: PublisherId)
    | Release(p: PublisherId)
    | Crash(p: PublisherId)
    | Foreign(raw: Raw)

  function SetPhase(s: State, p: PublisherId, phase: Phase): State {
    s.(publishers := s.publishers[p := phase])
  }

  function Idle(s: State, p: PublisherId): State {
    s.(publishers := s.publishers - {p})
  }

  predicate NewRow(id: EventId, row: Row) {
    && row.claim.None? && row.attempts == 0 && row.deliveredAt.None?
    && (row.parsed.Some? ==> row.parsed.value.eventId == id)
  }

  /** One move; a move that its publisher is not ready for, or that repeats a token, does nothing. */
  ghost function Next(s: State, m: Move): State {
    match m
    case Insert(id, row) => if id in s.rows || !NewRow(id, row) then s else s.(rows := s.rows[id := row])
    case ClaimMove(p, token, locked, now, stamp) =>
      if p in s.publishers || token in s.tokens || now < s.clock || stamp < now then s
      else
        var (rows, claimed) := ClaimNext(s.rows, token, locked, now, stamp, LEASE);
        var t := s.(rows := rows, clock := stamp, tokens := s.tokens + {token});
        if claimed.None? then t else SetPhase(t, p, HasClaim(claimed.value))
    case Append(p, lost) =>
      if p !in s.publishers || !s.publishers[p].HasClaim? || s.publishers[p].claim.parsed.None? then s
      else
        var claim := s.publishers[p].claim;
        SetPhase(s.(stream := s.stream + [Readable(claim.parsed.value)]), p, if lost then GivingUp(claim)
          else Appended(claim))
    case Mark(p, now, lost) =>
      if p !in s.publishers || !s.publishers[p].Appended? || now < s.clock then s
      else
        var claim := s.publishers[p].claim;
        var (rows, updated) := MarkPublished(s.rows, claim.eventId, claim.token, now);
        var t := s.(rows := rows, clock := now);
        if updated && !lost then Idle(t, p) else SetPhase(t, p, GivingUp(claim))
    case GiveUp(p) => if p !in s.publishers then s else SetPhase(s, p, GivingUp(s.publishers[p].claim))
    case Release(p) =>
      if p !in s.publishers || !s.publishers[p].GivingUp? then s
      else Idle(s.(rows := OutboxRows.Release(s.rows, s.publishers[p].claim.eventId, s.publishers[p].claim.token)), p)
    case Crash(p) => Idle(s, p)
    case Foreign(raw) => s.(stream := s.stream + [raw])
  }

  ghost function Run(s: State, moves: seq<Move>): State
    decreases moves
  {
    if moves == [] then s else Run(Next(s, moves[0]), moves[1..])
  }

  // ---- The invariant ----

  ghost predicate InStream(stream: seq<Raw>, event: Event) {
    Readable(event) in stream
  }

  ghost predicate RowOk(s: State, id: EventId)
    requires id in s.rows
  {
    var row := s.rows[id];
    && (row.parsed.Some? ==> row.parsed.value.eventId == id)
    && (row.claim.Some? ==> row.claim.value.token in s.tokens && row.claim.value.expiresAt <= s.clock + LEASE)
    && (row.deliveredAt.Some? ==> row.claim.None? && row.parsed.Some? && InStream(s.stream, row.parsed.value))
  }

  /** A publisher works for a row it claimed, knows its event, and has appended it before it marks. */
  ghost predicate PublisherOk(s: State, p: PublisherId)
    requires p in s.publishers
  {
    var claim := s.publishers[p].claim;
    && claim.token in s.tokens
    && claim.eventId in s.rows && s.rows[claim.eventId].parsed == claim.parsed
    && (s.publishers[p].Appended? ==> claim.parsed.Some? && InStream(s.stream, claim.parsed.value))
  }

  /** No two publishers, and no publisher and a foreign row, share a token. */
  ghost predicate TokensApart(s: State) {
    && (forall p, q ::
      p in s.publishers && q in s.publishers && s.publishers[p].claim.token == s.publishers[q].claim.token ==> p == q)
    && (forall p, id ::
          (&& p in s.publishers && id in s.rows && s.rows[id].claim.Some?
           && s.rows[id].claim.value.token == s.publishers[p].claim.token) ==> id == s.publishers[p].claim.eventId)
  }

  ghost predicate Ok(s: State) {
    && (forall id :: id in s.rows ==> RowOk(s, id))
    && (forall p :: p in s.publishers ==> PublisherOk(s, p))
    && TokensApart(s)
  }

  lemma ClaimKeepsOk(s: State, m: Move)
    requires Ok(s) && m.ClaimMove?
    ensures Ok(Next(s, m))
  {
    hide Ok, ClaimNext;
    if m.p !in s.publishers && m.token !in s.tokens && s.clock <= m.now <= m.stamp {
      ClaimedIsOk(s, m.p, m.token, m.locked, m.now, m.stamp);
    }
  }

  lemma ClaimedIsOk(s: State, p: PublisherId, token: Token, locked: set<EventId>, now: Time, stamp: Time)
    requires Ok(s) && p !in s.publishers && token !in s.tokens && s.clock <= now <= stamp
    ensures
      var (rows, claimed) := ClaimNext(s.rows, token, locked, now, stamp, LEASE);
      var t := s.(rows := rows, clock := stamp, tokens := s.tokens + {token});
      Ok(if claimed.None? then t else SetPhase(t, p, HasClaim(claimed.value)))
  {
    hide Ok;
    var (rows, claimed) := ClaimNext(s.rows, token, locked, now, stamp, LEASE);
    LaterIsOk(s, stamp, token);
    if claimed.Some? { HoldingIsOk(s, p, token, claimed.value.eventId, stamp); }
  }

  lemma LaterIsOk(s: State, stamp: Time, token: Token)
    requires Ok(s) && s.clock <= stamp
    ensures Ok(s.(clock := stamp, tokens := s.tokens + {token}))
  {
  }

  /** An undelivered row may be given to an idle publisher under a new token. */
  lemma HoldingIsOk(s: State, p: PublisherId, token: Token, id: EventId, stamp: Time)
    requires Ok(s) && p !in s.publishers && token !in s.tokens && s.clock <= stamp
    requires id in s.rows && s.rows[id].deliveredAt.None?
    ensures
      var row := s.rows[id];
      var claimed := row.(claim := Some(Claim(token, stamp + LEASE)), attempts := row.attempts + 1);
      Ok(SetPhase(s.(rows := s.rows[id := claimed], clock := stamp, tokens := s.tokens + {token}), p,
        HasClaim(Claimed(id, token, row.parsed))))
  {
  }

  lemma AppendKeepsOk(s: State, m: Move)
    requires Ok(s) && (m.Append? || m.Foreign?)
    ensures Ok(Next(s, m))
  {
    var t := Next(s, m);
    assert forall e :: InStream(s.stream, e) ==> InStream(t.stream, e);
    assert m.Append? && t != s ==> t.stream[|s.stream|] == Readable(s.publishers[m.p].claim.parsed.value);
  }

  /** Recording a delivery whose event is in the stream, on the clock `now`. */
  lemma RecordKeepsOk(s: State, p: PublisherId, now: Time)
    requires Ok(s) && p in s.publishers && s.publishers[p].Appended? && s.clock <= now
    ensures Ok(s.(rows := MarkPublished(s.rows, s.publishers[p].claim.eventId, s.publishers[p].claim.token, now).0,
      clock := now))
  {
    assert PublisherOk(s, p);
  }

  lemma PhaseKeepsOk(s: State, p: PublisherId)
    requires Ok(s) && p in s.publishers
    ensures Ok(SetPhase(s, p, GivingUp(s.publishers[p].claim))) && Ok(Idle(s, p))
  {
  }

  lemma MarkKeepsOk(s: State, m: Move)
    requires Ok(s) && m.Mark?
    ensures Ok(Next(s, m))
  {
    hide Ok, MarkPublished;
    if m.p in s.publishers && s.publishers[m.p].Appended? && s.clock <= m.now {
      var claim := s.publishers[m.p].claim;
      RecordKeepsOk(s, m.p, m.now);
      PhaseKeepsOk(s.(rows := MarkPublished(s.rows, claim.eventId, claim.token, m.now).0, clock := m.now), m.p);
    }
  }

  lemma ReleaseKeepsOk(s: State, m: Move)
    requires Ok(s) && m.Release?
    ensures Ok(Next(s, m))
  {
    hide Ok, OutboxRows.Release;
    if m.p in s.publishers && s.publishers[m.p].GivingUp? {
      var claim := s.publishers[m.p].claim;
      GivenBackIsOk(s, claim.eventId, claim.token);
      PhaseKeepsOk(s.(rows := OutboxRows.Release(s.rows, claim.eventId, claim.token)), m.p);
    }
  }

  lemma GivenBackIsOk(s: State, id: EventId, token: Token)
    requires Ok(s)
    ensures Ok(s.(rows := OutboxRows.Release(s.rows, id, token)))
  {
  }

  lemma InsertKeepsOk(s: State, m: Move)
    requires Ok(s) && m.Insert?
    ensures Ok(Next(s, m))
  {
  }

  lemma LeaveKeepsOk(s: State, m: Move)
    requires Ok(s) && (m.GiveUp? || m.Crash?)
    ensures Ok(Next(s, m))
  {
  }

  lemma NextKeepsOk(s: State, m: Move)
    requires Ok(s)
    ensures Ok(Next(s, m))
  {
    hide Ok, Next;
    match m
    case ClaimMove(_, _, _, _, _) => ClaimKeepsOk(s, m);
    case Append(_, _) => AppendKeepsOk(s, m);
    case Foreign(_) => AppendKeepsOk(s, m);
    case Mark(_, _, _) => MarkKeepsOk(s, m);
    case Release(_) => ReleaseKeepsOk(s, m);
    case Insert(_, _) => InsertKeepsOk(s, m);
    case GiveUp(_) => LeaveKeepsOk(s, m);
    case Crash(_) => LeaveKeepsOk(s, m);
  }

  lemma {:induction false} RunKeepsOk(s: State, moves: seq<Move>)
    requires Ok(s)
    ensures Ok(Run(s, moves))
    decreases moves
  {
    if moves != [] {
      NextKeepsOk(s, moves[0]);
      RunKeepsOk(Next(s, moves[0]), moves[1..]);
    }
  }

  ghost predicate Reachable(s: State) {
    exists moves :: Run(START, moves) == s
  }

  lemma ReachableOk(s: State)
    requires Reachable(s)
    ensures Ok(s)
  {
    var moves :| Run(START, moves) == s;
    RunKeepsOk(START, moves);
  }

  // ---- Lease safety ----

  /** Every row marked delivered has an earlier accepted append of its event. */
  lemma DeliveredWasAppended(s: State, id: EventId)
    requires Reachable(s) && id in s.rows && s.rows[id].deliveredAt.Some?
    ensures exists event :: s.rows[id].parsed == Some(event) && event.eventId == id && Readable(event) in s.stream
  {
    ReachableOk(s);
    assert RowOk(s, id);
  }

  /** At most one publisher can mark or release a given row. */
  lemma OneEffectiveHolder(s: State, p: PublisherId, q: PublisherId, id: EventId)
    requires Reachable(s) && p in s.publishers && q in s.publishers
    requires Holds(s.rows, id, s.publishers[p].claim.token) && Holds(s.rows, id, s.publishers[q].claim.token)
    ensures p == q
  {
    ReachableOk(s);
  }

  /** A row never changes again once it is delivered, and is never removed. */
  lemma RowsLast(s: State, m: Move, id: EventId)
    requires Ok(s) && id in s.rows
    ensures id in Next(s, m).rows
    ensures s.rows[id].deliveredAt.Some? ==> Next(s, m).rows[id] == s.rows[id]
  {
  }

  lemma {:induction false} DeliveredIsFinal(s: State, moves: seq<Move>, id: EventId)
    requires Ok(s) && id in s.rows && s.rows[id].deliveredAt.Some?
    ensures id in Run(s, moves).rows && Run(s, moves).rows[id] == s.rows[id]
    decreases moves
  {
    if moves != [] {
      RowsLast(s, moves[0], id);
      NextKeepsOk(s, moves[0]);
      DeliveredIsFinal(Next(s, moves[0]), moves[1..], id);
    }
  }

  lemma LostStep(s: State, m: Move, id: EventId, token: Token)
    requires Ok(s) && token in s.tokens && !Holds(s.rows, id, token)
    ensures token in Next(s, m).tokens && !Holds(Next(s, m).rows, id, token)
  {
  }

  /**
   * A claim that was taken over (or given back, or already recorded) never comes back: at no later
   * point can its holder mark the row or release it.
   */
  lemma {:induction false} LostClaimIsPowerless(s: State, moves: seq<Move>, id: EventId, token: Token, now: Time)
    requires Ok(s) && token in s.tokens && !Holds(s.rows, id, token)
    ensures
      var t := Run(s, moves);
      MarkPublished(t.rows, id, token, now) == (t.rows, false) && OutboxRows.Release(t.rows, id, token) == t.rows
    decreases moves
  {
    if moves != [] {
      LostStep(s, moves[0], id, token);
      NextKeepsOk(s, moves[0]);
      LostClaimIsPowerless(Next(s, moves[0]), moves[1..], id, token, now);
    }
  }

  /** Taking a row over takes it from whoever had it. */
  lemma TakeoverEndsTheOldClaim(s: State, m: Move, id: EventId, token: Token)
    requires Ok(s) && m.ClaimMove? && token in s.tokens
    requires m.p in Next(s, m).publishers && m.p !in s.publishers && Next(s, m).publishers[m.p].claim.eventId == id
    ensures !Holds(Next(s, m).rows, id, token)
  {
  }

  // ---- Appends are bounded by attempts ----

  function Appends(stream: seq<Raw>, id: EventId): nat {
    if stream == [] then 0
    else
      var last := stream[|stream| - 1];
      Appends(stream[..|stream| - 1], id) + if last.Readable? && last.event.eventId == id then 1 else 0
  }

  /** The publishers that hold a claim on the row and may still append. */
  ghost function Pending(s: State, id: EventId): set<PublisherId> {
    set p | p in s.publishers && s.publishers[p].HasClaim? && s.publishers[p].claim.eventId == id
  }

  ghost predicate NoForeign(moves: seq<Move>) {
    forall i :: 0 <= i < |moves| ==> !(moves[i].Foreign? && moves[i].raw.Readable?)
  }

  /** The events of a row in the stream, and those its claimants may still put there. */
  ghost predicate WithinAttempts(s: State, id: EventId) {
    id in s.rows && Appends(s.stream, id) + |Pending(s, id)| <= s.rows[id].attempts
  }

  /** A claim counts one attempt, on the row it takes. */
  lemma ClaimTakesARow(rows: Rows, token: Token, locked: set<EventId>, now: Time, stamp: Time, id: EventId)
    requires id in rows
    ensures
      var r := ClaimNext(rows, token, locked, now, stamp, LEASE);
      && id in r.0
      && r.0[id].attempts == rows[id].attempts + if r.1.Some? && r.1.value.eventId == id then 1 else 0
  {
  }

  lemma ClaimWithinAttempts(s: State, m: Move, id: EventId)
    requires WithinAttempts(s, id) && m.ClaimMove?
    ensures WithinAttempts(Next(s, m), id)
  {
    hide Appends, ClaimNext;
    var t := Next(s, m);
    ClaimTakesARow(s.rows, m.token, m.locked, m.now, m.stamp, id);
    if m.p !in s.publishers && m.p in t.publishers && t.publishers[m.p].claim.eventId == id {
      assert Pending(t, id) == Pending(s, id) + {m.p};
    } else {
      assert Pending(t, id) == Pending(s, id);
    }
  }

  lemma ClaimNamesItsEvent(s: State, p: PublisherId)
    requires Ok(s) && p in s.publishers
    ensures
      var claim := s.publishers[p].claim;
      claim.parsed.Some? ==> claim.parsed.value.eventId == claim.eventId
  {
    assert PublisherOk(s, p) && RowOk(s, s.publishers[p].claim.eventId);
  }

  lemma AppendWithinAttempts(s: State, m: Move, id: EventId)
    requires Ok(s) && WithinAttempts(s, id) && m.Append?
    ensures WithinAttempts(Next(s, m), id)
  {
    hide Ok, RowOk, PublisherOk;
    var t := Next(s, m);
    if t != s {
      var claim := s.publishers[m.p].claim;
      ClaimNamesItsEvent(s, m.p);
      assert t.stream[..|s.stream|] == s.stream;
      assert Pending(t, id) == Pending(s, id) - if claim.eventId == id then {m.p} else {};
      assert claim.eventId == id ==> m.p in Pending(s, id);
    }
  }

  lemma AppendsOfMore(stream: seq<Raw>, m: Move, id: EventId)
    ensures m.Foreign? && m.raw.Unreadable? ==> Appends(stream + [m.raw], id) == Appends(stream, id)
  {
    if m.Foreign? { assert (stream + [m.raw])[..|stream|] == stream; }
  }

  lemma OtherWithinAttempts(s: State, m: Move, id: EventId)
    requires WithinAttempts(s, id) && !m.ClaimMove? && !m.Append? && !(m.Foreign? && m.raw.Readable?)
    ensures WithinAttempts(Next(s, m), id)
  {
    var t := Next(s, m);
    hide Appends, Pending;
    FewerPending(s, t, id);
    AppendsOfMore(s.stream, m, id);
  }

  lemma AppendsStep(s: State, m: Move, id: EventId)
    requires Ok(s) && WithinAttempts(s, id) && !(m.Foreign? && m.raw.Readable?)
    ensures WithinAttempts(Next(s, m), id)
  {
    hide Ok, WithinAttempts, Next;
    if m.ClaimMove? { ClaimWithinAttempts(s, m, id); }
    else if m.Append? { AppendWithinAttempts(s, m, id); }
    else { OtherWithinAttempts(s, m, id); }
  }

  lemma FewerPending(s: State, t: State, id: EventId)
    requires forall p :: p in t.publishers && t.publishers[p].HasClaim? ==>
      p in s.publishers && s.publishers[p] == t.publishers[p]
    ensures |Pending(t, id)| <= |Pending(s, id)|
  {
    SubsetSize(Pending(t, id), Pending(s, id));
  }

  lemma SubsetSize(a: set<PublisherId>, b: set<PublisherId>)
    requires a <= b
    ensures |a| <= |b|
  {
    assert b == a + (b - a);
  }

  lemma {:induction false} NothingAppendedBefore(stream: seq<Raw>, id: EventId)
    requires forall i :: 0 <= i < |stream| && stream[i].Readable? ==> stream[i].event.eventId != id
    ensures Appends(stream, id) == 0
  {
    if stream != [] { NothingAppendedBefore(stream[..|stream| - 1], id); }
  }

  /** Every event in the stream belongs to a row, as long as only publishers append events. */
  ghost predicate StreamFromRows(s: State) {
    forall i :: 0 <= i < |s.stream| && s.stream[i].Readable? ==> s.stream[i].event.eventId in s.rows
  }

  lemma StreamFromRowsStep(s: State, m: Move)
    requires Ok(s) && StreamFromRows(s) && !(m.Foreign? && m.raw.Readable?)
    ensures StreamFromRows(Next(s, m))
  {
    if m.Append? && m.p in s.publishers { assert PublisherOk(s, m.p) && RowOk(s, s.publishers[m.p].claim.eventId); }
    forall id | id in s.rows ensures id in Next(s, m).rows { RowsLast(s, m, id); }
  }

  /** A row starts without attempts, appends or claimants. */
  lemma NewWithinAttempts(s: State, id: EventId)
    requires Ok(s) && StreamFromRows(s) && id !in s.rows
    ensures Appends(s.stream, id) == 0 && Pending(s, id) == {}
  {
    NothingAppendedBefore(s.stream, id);
    forall p | p in s.publishers ensures s.publishers[p].claim.eventId != id { assert PublisherOk(s, p); }
  }

  lemma InsertWithinAttempts(s: State, m: Move, id: EventId)
    requires Ok(s) && StreamFromRows(s) && id !in s.rows && id in Next(s, m).rows
    ensures WithinAttempts(Next(s, m), id)
  {
    NewWithinAttempts(s, id);
    hide Ok, StreamFromRows;
    assert m.Insert?;
    assert Pending(Next(s, m), id) == Pending(s, id);
  }

  /** The number of times an event enters the stream never exceeds the attempts counted on its row. */
  lemma {:induction false} AppendsWithinAttempts(s: State, moves: seq<Move>, id: EventId)
    requires Ok(s) && StreamFromRows(s) && NoForeign(moves)
    requires id in s.rows ==> WithinAttempts(s, id)
    ensures id in Run(s, moves).rows ==> Appends(Run(s, moves).stream, id) <= Run(s, moves).rows[id].attempts
    decreases moves
  {
    if moves == [] {
      return;
    }
    hide Ok, Next, StreamFromRows, WithinAttempts;
    var t := Next(s, moves[0]);
    NextKeepsOk(s, moves[0]);
    StreamFromRowsStep(s, moves[0]);
    if id in s.rows {
      AppendsStep(s, moves[0], id);
    } else if id in t.rows {
      InsertWithinAttempts(s, moves[0], id);
    }
    assert forall i :: 0 <= i < |moves[1..]| ==> moves[1..][i] == moves[i + 1];
    AppendsWithinAttempts(t, moves[1..], id);
  }

  // ---- Every undelivered row comes round again ----

  /** By availability, then occurrence, then id. */
  predicate NoLater(rows: Rows, a: EventId, b: EventId)
    requires a in rows && b in rows
  {
    && rows[a].availableAt <= rows[b].availableAt
    && (rows[a].availableAt == rows[b].availableAt ==>
          && rows[a].occurredAt <= rows[b].occurredAt
          && (rows[a].occurredAt == rows[b].occurredAt ==> a <= b))
  }

  /** A claim finds nothing exactly when no row may be taken. */
  lemma ClaimFindsWork(rows: Rows, token: Token, locked: set<EventId>, now: Time, stamp: Time)
    ensures ClaimNext(rows, token, locked, now, stamp, LEASE).1.Some?
      <==> exists id :: Takeable(rows, id, locked, now)
  {
    OldestIsClaimed(rows, token, locked, now, stamp, LEASE);
  }

  /**
   * In every reachable state an undelivered message-created row that is due is claimable at the
   * latest one lease from now, unless somebody claims it anew in the meantime; and then whichever
   * row a claim takes comes no later in order.
   */
  lemma LeasesRunOut(s: State, id: EventId, at: Time)
    requires Reachable(s) && id in s.rows && s.rows[id].deliveredAt.None? && s.rows[id].messageCreated
    requires s.rows[id].availableAt <= at && s.clock + LEASE <= at
    ensures Takeable(s.rows, id, {}, at)
    ensures forall token, locked, stamp :: id !in locked ==>
      var claimed := ClaimNext(s.rows, token, locked, at, stamp, LEASE).1;
      claimed.Some? && claimed.value.eventId in s.rows && NoLater(s.rows, claimed.value.eventId, id)
  {
    ReachableOk(s);
    assert RowOk(s, id);
    forall token, locked, stamp | id !in locked
      ensures
        var claimed := ClaimNext(s.rows, token, locked, at, stamp, LEASE).1;
        claimed.Some? && claimed.value.eventId in s.rows && NoLater(s.rows, claimed.value.eventId, id)
    {
      OldestIsClaimed(s.rows, token, locked, at, stamp, LEASE);
      assert Takeable(s.rows, id, locked, at);
    }
  }

  /** From everywhere a delivery can be reached: a free publisher claims the row, appends and marks. */
  lemma RowsCanBeDelivered(s: State, id: EventId) returns (moves: seq<Move>)
    requires Reachable(s) && id in s.rows && s.rows[id].deliveredAt.None? && s.rows[id].messageCreated
    requires s.rows[id].parsed.Some?
    ensures
      var t := Run(s, moves);
      && id in t.rows && t.rows[id].deliveredAt.Some? && t.rows[id].claim.None?
      && t.stream == s.stream + [Readable(s.rows[id].parsed.value)]
      && (forall other :: other in s.rows && other != id ==> other in t.rows && t.rows[other] == s.rows[other])
  {
    hide Run, ClaimNext, MarkPublished;
    ReachableOk(s);
    var p := NewId(s.publishers.Keys);
    var token := NewId(s.tokens);
    var now := Max(s.clock + LEASE, Max(s.clock, s.rows[id].availableAt));
    assert RowOk(s, id);
    var locked := s.rows.Keys - {id};
    OldestIsClaimed(s.rows, token, locked, now, now, LEASE);
    assert Takeable(s.rows, id, locked, now);
    var claim, append, mark := ClaimMove(p, token, locked, now, now), Append(p, false), Mark(p, now, false);
    var claimed := Next(s, claim);
    assert claimed.publishers[p] == HasClaim(Claimed(id, token, s.rows[id].parsed));
    var appended := Next(claimed, append);
    OnlyTheCurrentToken(appended.rows, id, token, now);
    moves := [claim, append] + [mark];
    RunOfMore(s, claim, append, [mark]);
    RunOfTwo(appended, mark, mark);
  }

  /** A row comes into being undelivered, and can then be delivered. */
  lemma RowsCanBeInserted(s: State, id: EventId, event: Event, availableAt: Time, occurredAt: Time)
    requires id !in s.rows && event.eventId == id
    ensures
      var row := Row(Some(event), true, availableAt, occurredAt, None, 0, None);
      Next(s, Insert(id, row)) == s.(rows := s.rows[id := row])
  {
  }

  // ---- A round of the publisher is a run of moves ----

  function Script(p: PublisherId, c: P.Course, claim: Option<Claimed>): seq<Move> {
    var first := ClaimMove(p, c.token, c.locked, c.now, c.stamp);
    var last := if c.release.Refused? then Crash(p) else Release(p);
    if claim.None? then [first]
    else if claim.value.parsed.None? || c.append.Refused? then [first, GiveUp(p), last]
    else if c.append.AnswerLost? then [first, Append(p, true), last]
    else if c.mark.Refused? then [first, Append(p, false), GiveUp(p), last]
    else if c.mark.AnswerLost? then [first, Append(p, false), Mark(p, c.markedAt, true), last]
    else [first, Append(p, false), Mark(p, c.markedAt, false)]
  }

  lemma RunStep(s: State, moves: seq<Move>)
    ensures Run(s, moves) == if moves == [] then s else Run(Next(s, moves[0]), moves[1..])
  {
  }

  lemma RunOfTwo(s: State, a: Move, b: Move)
    ensures Run(s, [a]) == Next(s, a) && Run(s, [a, b]) == Next(Next(s, a), b)
  {
    hide Next, Run;
    RunStep(s, [a]);
    RunStep(Next(s, a), []);
    RunStep(s, [a, b]);
    RunStep(Next(s, a), [b]);
    RunStep(Next(Next(s, a), b), []);
    assert [a][1..] == [] && [a, b][1..] == [b] && [b][1..] == [];
  }

  lemma RunOfMore(s: State, a: Move, b: Move, moves: seq<Move>)
    ensures Run(s, [a, b] + moves) == Run(Next(Next(s, a), b), moves)
  {
    hide Next, Run;
    RunStep(s, [a, b] + moves);
    RunStep(Next(s, a), [b] + moves);
    assert ([a, b] + moves)[1..] == [b] + moves && ([b] + moves)[1..] == moves;
  }

  /** The publisher has claimed: what is left of its round, from the state in which it holds the claim. */
  lemma RoundAfterClaim(s: State, p: PublisherId, c: P.Course, claimed: Claimed)
    requires p in s.publishers && s.publishers[p] == HasClaim(claimed) && claimed.token == c.token
      && s.clock <= c.markedAt
    requires claimed.eventId in s.rows && Holds(s.rows, claimed.eventId, c.token)
    ensures
      var script := Script(p, c, Some(claimed))[1..];
      var t := Run(s, script);
      && p !in t.publishers
      && t.stream == s.stream +
        (if claimed.parsed.Some? && !c.append.Refused? then [Readable(claimed.parsed.value)] else [])
      && t.rows ==
           if claimed.parsed.Some? && c.append.Answered?
             && !c.mark.Refused? then MarkPublished(s.rows, claimed.eventId, c.token, c.markedAt).0
           else if c.release.Refused? then s.rows
           else OutboxRows.Release(s.rows, claimed.eventId, c.token)
  {
    hide Run;
    var script := Script(p, c, Some(claimed))[1..];
    RunOfTwo(s, script[0], script[1]);
    if |script| == 3 {
      RunOfMore(s, script[0], script[1], [script[2]]);
      RunOfTwo(Next(Next(s, script[0]), script[1]), script[2], script[2]);
      assert script == [script[0], script[1]] + [script[2]];
    } else {
      assert script == [script[0], script[1]];
    }
  }

  /**
   * Whatever befalls its commands, one round of the publisher does to the rows and to the stream
   * what its moves do one after another, and leaves the publisher idle.
   */
  lemma RoundIsARun(s: State, p: PublisherId, c: P.Course)
    requires p !in s.publishers && c.token !in s.tokens && s.clock <= c.now <= c.stamp <= c.markedAt
    ensures
      var t := Run(s, Script(p, c, ClaimNext(s.rows, c.token, c.locked, c.now, c.stamp, LEASE).1));
      var round := P.Round(s.rows, s.stream, c);
      t.rows == round.0 && t.stream == round.1 && p !in t.publishers
  {
    hide Run;
    var claim := ClaimNext(s.rows, c.token, c.locked, c.now, c.stamp, LEASE).1;
    var script := Script(p, c, claim);
    var t := Next(s, script[0]);
    RunStep(s, script);
    if claim.Some? {
      RoundAfterClaim(t, p, c, claim.value);
    } else {
      assert script[1..] == [] && s.stream + [] == s.stream;
      RunStep(t, []);
    }
  }
}
