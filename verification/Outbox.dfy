/** The rows of the transactional outbox and the three statements that touch them. */
module OutboxRows {
  import opened Collections

  type EventId = nat
  type Token = nat
  type Chat = nat
  type MessageId = nat
  type Time = int

  /** A message-created event as it travels through the stream. */
  datatype Event = Event(eventId: EventId, chat: Chat, sequence: nat, messageId: MessageId)

  datatype Claim = Claim(token: Token, expiresAt: Time)

  /** `parsed` is what the contract parser makes of the row; None is a contract violation. */
  datatype Row = Row(
    parsed: Option<Event>,
    messageCreated: bool,
    availableAt: Time,
    occurredAt: Time,
    claim: Option<Claim>,
    attempts: nat,
    deliveredAt: Option<Time>)

  type Rows = map<EventId, Row>

  datatype Claimed = Claimed(eventId: EventId, token: Token, parsed: Option<Event>)

  const LEASE: int := 30_000

  predicate Claimable(row: Row, now: Time) {
    && row.deliveredAt.None?
    && row.messageCreated
    && row.availableAt <= now
    && (row.claim.None? || row.claim.value.expiresAt <= now)
  }

  /** The order in which candidates are taken. */
  predicate Before(rows: Rows, a: EventId, b: EventId)
    requires a in rows && b in rows
  {
    || rows[a].availableAt < rows[b].availableAt
    || (rows[a].availableAt == rows[b].availableAt && rows[a].occurredAt < rows[b].occurredAt)
    || (rows[a].availableAt == rows[b].availableAt && rows[a].occurredAt == rows[b].occurredAt && a < b)
  }

  /** Rows that another transaction has locked are skipped. */
  function Candidates(rows: Rows, now: Time, locked: set<EventId>): set<EventId> {
    set id | id in rows && id !in locked && Claimable(rows[id], now)
  }

  ghost predicate IsFirst(rows: Rows, ids: set<EventId>, id: EventId)
    requires ids <= rows.Keys
  {
    id in ids && forall other :: other in ids && other != id ==> Before(rows, id, other)
  }

  lemma FirstOfMore(rows: Rows, rest: set<EventId>, best: EventId, some: EventId)
    requires rest <= rows.Keys && some in rows && some !in rest && IsFirst(rows, rest, best)
    ensures IsFirst(rows, rest + {some}, if Before(rows, some, best) then some else best)
  {
  }

  lemma FirstExists(rows: Rows, ids: set<EventId>)
    requires ids <= rows.Keys && ids != {}
    ensures exists id :: IsFirst(rows, ids, id)
    decreases |ids|
  {
    var some :| some in ids;
    if ids == {some} {
      assert IsFirst(rows, ids, some);
    } else {
      var rest := ids - {some};
      FirstExists(rows, rest);
      var least :| IsFirst(rows, rest, least);
      FirstOfMore(rows, rest, least, some);
      assert rest + {some} == ids;
    }
  }

  ghost function First(rows: Rows, ids: set<EventId>): (id: EventId)
    requires ids <= rows.Keys && ids != {}
    ensures IsFirst(rows, ids, id)
  {
    FirstExists(rows, ids);
    var id :| IsFirst(rows, ids, id);
    id
  }

  /** `now` is the clock the candidate was selected by, `stamp` the later one its lease starts from. */
  ghost function ClaimNext(
      rows: Rows, token: Token, locked: set<EventId>, now: Time, stamp: Time, lease: int): (Rows, Option<Claimed>) {
    var ids := Candidates(rows, now, locked);
    if ids == {} then (rows, None)
    else
      var id := First(rows, ids);
      (rows[id := rows[id].(claim := Some(Claim(token, stamp + lease)), attempts := rows[id].attempts + 1)],
       Some(Claimed(id, token, rows[id].parsed)))
  }

  /** The row may be taken: undelivered, due, neither locked nor under a claim that still runs. */
  predicate Takeable(rows: Rows, id: EventId, locked: set<EventId>, now: Time) {
    && id in rows && id !in locked
    && rows[id].deliveredAt == None && rows[id].messageCreated && rows[id].availableAt <= now
    && (rows[id].claim.Some? ==> rows[id].claim.value.expiresAt <= now)
  }

  /** No row that may be taken became available earlier, or as early and occurred earlier, or has a smaller id then. */
  ghost predicate NothingEarlier(rows: Rows, id: EventId, locked: set<EventId>, now: Time)
    requires id in rows
  {
    forall other :: Takeable(rows, other, locked, now) ==>
      && rows[id].availableAt <= rows[other].availableAt
      && (rows[other].availableAt == rows[id].availableAt ==> rows[id].occurredAt <= rows[other].occurredAt)
      && (rows[other].availableAt == rows[id].availableAt && rows[other].occurredAt == rows[id].occurredAt ==>
            id <= other)
  }

  /**
   * The oldest row that may be taken is the one taken: it is put under the new token until the lease
   * ends, the attempt is counted, its event handed out, and no other row changes.
   */
  lemma OldestIsClaimed(rows: Rows, token: Token, locked: set<EventId>, now: Time, stamp: Time, lease: int)
    ensures
      var r := ClaimNext(rows, token, locked, now, stamp, lease);
      && (r.1.None? <==> forall id :: !Takeable(rows, id, locked, now))
      && (r.1.None? ==> r.0 == rows)
      && (r.1.Some? ==>
            var id := r.1.value.eventId;
            && Takeable(rows, id, locked, now) && NothingEarlier(rows, id, locked, now)
            && r.1.value == Claimed(id, token, rows[id].parsed)
            && r.0 == rows[id := rows[id].(claim := Some(Claim(token, stamp + lease)),
                                             attempts := rows[id].attempts + 1)])
  {
    assert forall id :: Takeable(rows, id, locked, now) <==> id in Candidates(rows, now, locked);
  }

  predicate Holds(rows: Rows, id: EventId, token: Token) {
    && id in rows
    && rows[id].claim.Some? && rows[id].claim.value.token == token
    && rows[id].deliveredAt.None?
  }

  function MarkPublished(rows: Rows, id: EventId, token: Token, now: Time): (Rows, bool) {
    if Holds(rows, id, token) then (rows[id := rows[id].(deliveredAt := Some(now), claim := None)], true)
      else (rows, false)
  }

  function Release(rows: Rows, id: EventId, token: Token): Rows {
    if Holds(rows, id, token) then rows[id := rows[id].(claim := None)] else rows
  }

  /** Only the token a row is under now records its delivery or gives it back, and touches nothing else. */
  lemma OnlyTheCurrentToken(rows: Rows, id: EventId, token: Token, now: Time)
    ensures
      var held := id in rows && rows[id].deliveredAt == None
        && rows[id].claim.Some? && rows[id].claim.value.token == token;
      && MarkPublished(rows, id, token, now).1 == held
      && (!held ==> MarkPublished(rows, id, token, now).0 == rows && Release(rows, id, token) == rows)
      && (held ==>
            && MarkPublished(rows, id, token, now).0 == rows[id := rows[id].(deliveredAt := Some(now), claim := None)]
            && Release(rows, id, token) == rows[id := rows[id].(claim := None)])
  {
  }

  /** A stream entry: an event, or something that is not one. */
  datatype Raw = Readable(event: Event) | Unreadable
}

/** The outbox repository and the publisher that drains it into the application stream. */
module OutboxPublishing {
  import opened Collections
  import opened OutboxRows
  import Rows = OutboxRows

  datatype ClaimResult = InvalidLease | Answer(claimed: Option<Claimed>)

  class OutboxRepository {
    var rows: OutboxRows.Rows

    /** One atomic statement: select the first candidate, stamp the claim, count the attempt. */
    method ClaimNext(token: Token, locked: set<EventId>, now: Time, stamp: Time, lease: int) returns (r: ClaimResult)
      modifies this
      ensures lease < 1_000 ==> r == InvalidLease && rows == old(rows)
      ensures lease >= 1_000 ==>
        r.Answer? && (rows, r.claimed) == Rows.ClaimNext(old(rows), token, locked, now, stamp, lease)
    {
      if lease < 1_000 { return InvalidLease; }
      var best: Option<EventId> := None;
      var todo := rows.Keys;
      ghost var seen: set<EventId> := {};
      while todo != {}
        invariant todo + seen == rows.Keys && todo !! seen && rows == old(rows)
        invariant best.None? ==> forall id :: id in seen ==> id !in Candidates(rows, now, locked)
        invariant best.Some? ==> IsFirst(rows, Candidates(rows, now, locked) * seen, best.value)
        decreases todo
      {
        var id :| id in todo;
        ghost var before := Candidates(rows, now, locked) * seen;
        todo := todo - {id};
        seen := seen + {id};
        assert Candidates(rows, now, locked) * seen == before + if id in Candidates(rows, now, locked) then {id}
          else {};
        if id !in locked && Claimable(rows[id], now) {
          if best.Some? { FirstOfMore(rows, before, best.value, id); } else { assert before == {}; }
          if best.None? || Before(rows, id, best.value) {
            best := Some(id);
          }
        }
      }
      assert Candidates(rows, now, locked) * seen == Candidates(rows, now, locked);
      if best.None? {
        assert Candidates(rows, now, locked) == {};
        return Answer(None);
      }
      var id := best.value;
      assert First(rows, Candidates(rows, now, locked)) == id;
      var row := rows[id];
      rows := rows[id := row.(claim := Some(Claim(token, stamp + lease)), attempts := row.attempts + 1)];
      r := Answer(Some(Claimed(id, token, row.parsed)));
    }

    method MarkPublished(id: EventId, token: Token, now: Time) returns (updated: bool)
      modifies this
      ensures (rows, updated) == Rows.MarkPublished(old(rows), id, token, now)
    {
      if id !in rows || rows[id].claim.None? || rows[id].claim.value.token != token || rows[id].deliveredAt.Some? {
        return false;
      }
      rows := rows[id := rows[id].(deliveredAt := Some(now), claim := None)];
      updated := true;
    }

    method Release(id: EventId, token: Token)
      modifies this
      ensures rows == Rows.Release(old(rows), id, token)
    {
      if id in rows && rows[id].claim.Some? && rows[id].claim.value.token == token && rows[id].deliveredAt.None? {
        rows := rows[id := rows[id].(claim := None)];
      }
    }
  }

  class ApplicationStream {
    var entries: seq<Raw>

    method Add(event: Event)
      modifies this
      ensures entries == old(entries) + [Readable(event)]
    {
      entries := entries + [Readable(event)];
    }
  }

  /**
   * What befell one remote command: it took effect and answered, took effect but the answer was lost,
   * or did nothing.
   */
  datatype Fate = Answered | AnswerLost | Refused

  datatype Published = NothingToDo | Recorded | ContractViolation | Failed

  /** What befalls the commands of one round, and when. */
  datatype Course = Course(
    token: Token, locked: set<EventId>, now: Time, stamp: Time, markedAt: Time, append: Fate, mark: Fate, release: Fate)

  /** The rows, the stream and the answer after one round. */
  ghost function Round(rows: OutboxRows.Rows, entries: seq<Raw>, c: Course): (OutboxRows.Rows, seq<Raw>, Published) {
    var (claimedRows, claim) := ClaimNext(rows, c.token, c.locked, c.now, c.stamp, LEASE);
    match claim
    case None => (claimedRows, entries, NothingToDo)
    case Some(claimed) =>
      var appended := entries + if claimed.parsed.Some? && !c.append.Refused? then [Readable(claimed.parsed.value)]
        else [];
      var marks := claimed.parsed.Some? && c.append.Answered? && !c.mark.Refused?;
      (if marks then MarkPublished(claimedRows, claimed.eventId, c.token, c.markedAt).0
       else if c.release.Refused? then claimedRows
       else Release(claimedRows, claimed.eventId, c.token),
       appended,
       if marks && c.mark.Answered? then Recorded
       else if claimed.parsed.None? && c.release.Answered? then ContractViolation
       else Failed)
  }

  /**
   * A round changes at most the row it claims, the oldest that may be taken. It records that row as
   * delivered exactly when the stream said that it took the row's event and the record was made, and
   * then says so unless the answer was lost; a row it does not record, it has counted an attempt on,
   * and gives back unless giving back failed.
   */
  lemma RoundChangesOneRow(rows: OutboxRows.Rows, entries: seq<Raw>, c: Course, id: EventId)
    requires id in rows
    ensures
      var (after, stream, answer) := Round(rows, entries, c);
      id in after &&
      (after[id] != rows[id] ==>
         && answer != NothingToDo && Takeable(rows, id, c.locked, c.now) && NothingEarlier(rows, id, c.locked, c.now)
         && after[id].attempts == rows[id].attempts + 1
         && (forall other :: other in rows && other != id ==> other in after && after[other] == rows[other])
         && (after[id].deliveredAt.Some? <==> rows[id].parsed.Some? && c.append.Answered? && !c.mark.Refused?)
         && stream == entries +
              (if rows[id].parsed.Some? && !c.append.Refused? then [Readable(rows[id].parsed.value)] else [])
         && (after[id].deliveredAt.Some? ==>
               && after[id].deliveredAt == Some(c.markedAt) && after[id].claim.None?
               && rows[id].parsed.Some? && stream == entries + [Readable(rows[id].parsed.value)]
               && (answer == Recorded <==> c.mark.Answered?))
         && (after[id].deliveredAt.None? ==>
               && answer != Recorded && (after[id].claim.None? <==> !c.release.Refused?)
               && (answer == ContractViolation <==> rows[id].parsed.None? && c.release.Answered?)))
  {
    hide ClaimNext;
    OldestIsClaimed(rows, c.token, c.locked, c.now, c.stamp, LEASE);
  }

  /** A round has nothing to do exactly when no row may be taken; then it does nothing. */
  lemma IdleRounds(rows: OutboxRows.Rows, entries: seq<Raw>, c: Course)
    ensures
      var (after, stream, answer) := Round(rows, entries, c);
      && (answer == NothingToDo <==> forall id :: !Takeable(rows, id, c.locked, c.now))
      && (answer == NothingToDo ==> after == rows && stream == entries)
  {
    hide ClaimNext;
    OldestIsClaimed(rows, c.token, c.locked, c.now, c.stamp, LEASE);
  }

  /**
   * One round of the publisher. It records a row as delivered only after the stream took the event;
   * on every failure it tries to give its claim back and changes nothing else.
   */
  method PublishOnce(repository: OutboxRepository, stream: ApplicationStream, c: Course) returns (r: Published)
    modifies repository, stream
    ensures (repository.rows, stream.entries, r) == Round(old(repository.rows), old(stream.entries), c)
  {
    var answer := repository.ClaimNext(c.token, c.locked, c.now, c.stamp, LEASE);
    if answer.claimed.None? { return NothingToDo; }
    var claimed := answer.claimed.value;
    assert stream.entries + [] == stream.entries;
    if claimed.parsed.None? {
      if !c.release.Refused? { repository.Release(claimed.eventId, c.token); }
      return if c.release.Answered? then ContractViolation else Failed;
    }
    if !c.append.Refused? { stream.Add(claimed.parsed.value); }
    if c.append.Answered? {
      var updated := false;
      if !c.mark.Refused? { updated := repository.MarkPublished(claimed.eventId, c.token, c.markedAt); }
      if c.mark.Answered? && updated { return Recorded; }
    }
    if !c.release.Refused? { repository.Release(claimed.eventId, c.token); }
    r := Failed;
  }
}
