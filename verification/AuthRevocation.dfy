/** What revocation calls report, and what an administrative call that throws leaves behind. */
module AuthRevocation {
  import opened Collections
  import opened AuthState
  import opened AuthInvariant
  import opened AuthRuns

  /** The calls whose answer says how many sessions they revoked. */
  predicate Reports(op: Op) {
    || op.OpRevokeByVerifier?
    || (op.OpAdmin? && (op.request.SecurityReset? || op.request.RevokeAllSessions? || op.request.RevokeSession?))
  }

  /** The number of sessions the answer claims. */
  function Reported(s: Repo, op: Op): nat
    requires Reports(op)
  {
    if op.OpRevokeByVerifier? then if RevokeSessionByVerifier(s, op.v, op.now).1 then 1 else 0
    else
      match AsAdministrator(s, op.v, op.now, op.request).1
      case Ok(CountReply(n)) => n
      case Ok(FlagReply(b)) => if b then 1 else 0
      case Ok(ResetReply(counts)) => counts.sessions
      case _ => 0
  }

  /** The sessions that were live before and are not afterwards. */
  function Dropped(before: Sessions, after: Sessions): set<Verifier> {
    set v | v in before.entries && v in after.entries && before.entries[v].Live() && !after.entries[v].Live()
  }

  lemma RevokingDropsChosen(sessions: Sessions, chosen: set<Verifier>, now: Time)
    requires forall v :: v in chosen ==> v in sessions.entries && sessions.entries[v].Live()
    ensures Dropped(sessions, RevokeSessions(sessions, chosen, now)) == chosen
  {
  }

  lemma AdministerReports(s: Repo, owner: bool, op: Op)
    requires op.OpAdmin? && Reports(op)
    ensures
      var r := Administer(s, owner, op.request, op.now);
      var dropped := Dropped(s.sessions, r.0.sessions);
      match r.1
      case Ok(CountReply(n)) => n == |dropped|
      case Ok(FlagReply(b)) => |dropped| == if b then 1 else 0
      case Ok(ResetReply(counts)) => counts.sessions == |dropped|
      case Ok(AccountReply(_)) => false
      case Thrown(_) => dropped == {}
  {
    match op.request
    case SecurityReset(u) => RevokingDropsChosen(s.sessions, LiveSessions(s.sessions, u), op.now);
    case RevokeAllSessions(u) => RevokingDropsChosen(s.sessions, LiveSessions(s.sessions, u), op.now);
    case RevokeSession(u, id) =>
      var found := FirstLiveSession(s.sessions, s.sessions.order, u, id);
      if found.Some? {
        RevokingDropsChosen(s.sessions, {found.value}, op.now);
      }
  }

  /** Renewing a session's idle clock does not change which sessions are live. */
  lemma TouchDropsNothing(s: Repo, actor: Verifier, now: Time, after: Sessions)
    requires RequireAdministrator(s, actor, now).Some?
    ensures Dropped(s.sessions, after) == Dropped(RequireAdministrator(s, actor, now).value.sessions, after)
  {
  }

  /** A revocation call reports exactly the sessions it took out of use. */
  lemma ReportIsExact(s: Repo, op: Op)
    requires Reports(op)
    ensures Reported(s, op) == |Dropped(s.sessions, Step(s, op).sessions)|
  {
    if op.OpRevokeByVerifier? {
      if RevokeSessionByVerifier(s, op.v, op.now).1 {
        RevokingDropsChosen(s.sessions, {op.v}, op.now);
      }
    } else {
      hide Administer, Dropped;
      if RequireAdministrator(s, op.v, op.now).Some? {
        var t := RequireAdministrator(s, op.v, op.now).value;
        AdministerReports(t, OwnerActs(s, op.v), op);
        TouchDropsNothing(s, op.v, op.now, Step(s, op).sessions);
      } else {
        NothingDropped(s.sessions);
      }
    }
  }

  lemma NothingDropped(sessions: Sessions)
    ensures Dropped(sessions, sessions) == {}
  {
  }

  /**
   * A security reset reports the exact number of live sessions, open challenges and unrevoked
   * passkeys the account had, leaves it none, and leaves every other account's as they were; only
   * the acting session's idle clock moves.
   */
  lemma SecurityResetIsExact(s: Repo, actor: Verifier, now: Time, u: UserId)
    requires Inv(s) && AsAdministrator(s, actor, now, SecurityReset(u)).1.Ok?
    ensures
      var r := AsAdministrator(s, actor, now, SecurityReset(u));
      && r.1 == Ok(ResetReply(ResetCounts(
           |OpenChallenges(s.challenges, u)|, |LiveSessions(s.sessions, u)|, |LivePasskeys(s.passkeysById, u)|)))
      && LiveSessions(r.0.sessions, u) == {} && OpenChallenges(r.0.challenges, u) == {}
      && LivePasskeys(r.0.passkeysById, u) == {}
      && (forall v :: v in s.sessions.entries && s.sessions.entries[v].accountId != u ==>
            r.0.sessions.entries[v] == if v == actor then s.sessions.entries[v].Touched(now) else s.sessions.entries[v])
      && (forall c :: c in s.challenges.entries && s.challenges.entries[c].accountId != u ==>
            r.0.challenges.entries[c] == s.challenges.entries[c])
      && (forall p :: p in s.passkeysById.entries && s.passkeysById.entries[p].accountId != u ==>
            r.0.passkeysById.entries[p] == s.passkeysById.entries[p])
      && r.0.accountsById == s.accountsById
  {
    hide Inv;
    TouchKeepsLive(s, actor, now, u);
  }

  /** The session, with its idle clock renewed if it is the acting one. */
  function Acting(s: Repo, actor: Verifier, now: Time, v: Verifier): Session
    requires v in s.sessions.entries
  {
    if v == actor then s.sessions.entries[v].Touched(now) else s.sessions.entries[v]
  }

  /** Nothing but sessions has changed, and there are as many sessions as before. */
  predicate OnlySessions(s: Repo, t: Repo) {
    t == s.(sessions := t.sessions) && t.sessions.entries.Keys == s.sessions.entries.Keys
  }

  /**
   * Revoking all of an account's sessions reports how many were live, leaves none live, and leaves
   * every other account's session, and everything that is not a session, as it was; only the acting
   * session's idle clock moves.
   */
  lemma RevokeAllIsExact(s: Repo, actor: Verifier, now: Time, u: UserId)
    requires Inv(s) && AsAdministrator(s, actor, now, RevokeAllSessions(u)).1.Ok?
    ensures
      var (t, reply) := AsAdministrator(s, actor, now, RevokeAllSessions(u));
      && reply == Ok(CountReply(|LiveSessions(s.sessions, u)|))
      && LiveSessions(t.sessions, u) == {}
      && OnlySessions(s, t)
      && forall v :: v in s.sessions.entries ==>
           t.sessions.entries[v] ==
             if v in LiveSessions(s.sessions, u) then Acting(s, actor, now, v).(revokedAt := Some(now))
               else Acting(s, actor, now, v)
  {
    hide Inv;
    TouchKeepsLive(s, actor, now, u);
  }

  /** `t` is `s` with one live session of that account and id revoked. */
  ghost predicate OneRevoked(s: Repo, t: Repo, u: UserId, id: SessionId, now: Time) {
    exists w :: w in LiveSessions(s.sessions, u) && s.sessions.entries[w].input.sessionId == id
      && t == s.(sessions := RevokeSessions(s.sessions, {w}, now))
  }

  ghost predicate HasLive(s: Repo, u: UserId, id: SessionId) {
    exists v :: v in LiveSessions(s.sessions, u) && s.sessions.entries[v].input.sessionId == id
  }

  lemma RevokeOneIsExact(s: Repo, u: UserId, id: SessionId, now: Time)
    requires s.sessions.Valid() && u in s.accountsById
    ensures
      var (t, reply) := RevokeOne(s, u, id, now);
      if HasLive(s, u, id) then reply == Ok(FlagReply(true)) && OneRevoked(s, t, u, id, now)
      else reply == Ok(FlagReply(false)) && t == s
  {
    hide RevokeSessions;
    assert forall v :: v in LiveSessions(s.sessions, u) ==> v in s.sessions.order;
  }

  /** The state with nothing but the acting session's idle clock renewed. */
  function Touched(s: Repo, actor: Verifier, now: Time): Repo
    requires actor in s.sessions.entries
  {
    s.(sessions := s.sessions.Set(actor, s.sessions.entries[actor].Touched(now)))
  }

  lemma TouchKeepsIds(s: Repo, actor: Verifier, now: Time, u: UserId, id: SessionId)
    requires RequireAdministrator(s, actor, now).Some? && Inv(s)
    ensures actor in s.sessions.entries
    ensures RequireAdministrator(s, actor, now).value == Touched(s, actor, now)
      && Touched(s, actor, now).sessions.Valid()
    ensures HasLive(Touched(s, actor, now), u, id) <==> HasLive(s, u, id)
  {
    InvBasics(s);
    hide Inv;
    TouchKeepsLive(s, actor, now, u);
    var t := Touched(s, actor, now);
    assert forall v :: v in s.sessions.entries ==> t.sessions.entries[v].input == s.sessions.entries[v].input;
    hide OrderedMap.Valid, LiveSessions;
    assert forall v :: v in LiveSessions(s.sessions, u) <==> v in LiveSessions(t.sessions, u);
    if HasLive(s, u, id) {
      var v :| v in LiveSessions(s.sessions, u) && s.sessions.entries[v].input.sessionId == id;
      assert v in LiveSessions(t.sessions, u);
    }
    if HasLive(t, u, id) {
      var v :| v in LiveSessions(t.sessions, u) && t.sessions.entries[v].input.sessionId == id;
      assert v in LiveSessions(s.sessions, u);
    }
  }

  /**
   * Revoking one session answers yes exactly when the named account has a live session of that id.
   * Then it revokes one such session; nothing else changes but the acting session's idle clock.
   */
  lemma RevokeSessionIsExact(s: Repo, actor: Verifier, now: Time, u: UserId, id: SessionId)
    requires Inv(s) && AsAdministrator(s, actor, now, RevokeSession(u, id)).1.Ok?
    ensures
      var (t, reply) := AsAdministrator(s, actor, now, RevokeSession(u, id));
      && actor in s.sessions.entries
      && if HasLive(s, u, id)
         then reply == Ok(FlagReply(true)) && OneRevoked(Touched(s, actor, now), t, u, id, now)
         else reply == Ok(FlagReply(false)) && t == Touched(s, actor, now)
  {
    hide Inv, OneRevoked, HasLive, OrderedMap.Valid, RequireAdministrator, RevokeSessions;
    TouchKeepsIds(s, actor, now, u, id);
    RevokeOneIsExact(Touched(s, actor, now), u, id, now);
  }

  lemma TouchKeepsLive(s: Repo, actor: Verifier, now: Time, u: UserId)
    requires RequireAdministrator(s, actor, now).Some?
    ensures LiveSessions(RequireAdministrator(s, actor, now).value.sessions, u) == LiveSessions(s.sessions, u)
  {
  }

  // ---- Over a run ----

  /** All that the revocation calls of a run report together. */
  function TotalReported(s: Repo, ops: seq<Op>): nat
    decreases ops
  {
    if ops == [] then 0
    else (if Reports(ops[0]) then Reported(s, ops[0]) else 0) + TotalReported(Step(s, ops[0]), ops[1..])
  }

  function Counted(s: Repo, ops: seq<Op>): set<Verifier>
    decreases ops
  {
    if ops == [] then {}
    else
      var dropped := if Reports(ops[0]) then Dropped(s.sessions, Step(s, ops[0]).sessions) else {};
      dropped + Counted(Step(s, ops[0]), ops[1..])
  }

  /**
   * Over any run no session is counted twice by any revocation call: the reports add up to the
   * number of different sessions counted, each of which was not yet revoked at the start and is
   * revoked at the end.
   */
  lemma {:induction false} NoSessionCountedTwice(s: Repo, ops: seq<Op>)
    requires Inv(s)
    ensures TotalReported(s, ops) == |Counted(s, ops)|
    ensures forall v :: v in Counted(s, ops) ==>
      && (v in s.sessions.entries ==> s.sessions.entries[v].Live())
      && v in Run(s, ops).sessions.entries && !Run(s, ops).sessions.entries[v].Live()
    decreases ops
  {
    hide Step, Inv, Reported, Reports, PasskeysOnlyClose, ChallengesOnlyClose, FreshRun, FreshStep;
    if ops != [] {
      var t := Step(s, ops[0]);
      StepKeepsInv(s, ops[0]);
      StepOnlyCloses(s, ops[0]);
      NoSessionCountedTwice(t, ops[1..]);
      RunOnlyCloses(t, ops[1..]);
      if Reports(ops[0]) {
        ReportIsExact(s, ops[0]);
        assert Dropped(s.sessions, t.sessions) !! Counted(t, ops[1..]);
      }
    }
  }

  /** An administrative call that throws changes nothing but the acting session's idle clock. */
  lemma ThrowingChangesNothing(s: Repo, actor: Verifier, now: Time, request: Administration)
    requires AsAdministrator(s, actor, now, request).1.Thrown?
    ensures
      var t := AsAdministrator(s, actor, now, request).0;
      || t == s
      || (actor in s.sessions.entries
        && t == s.(sessions := s.sessions.Set(actor, s.sessions.entries[actor].Touched(now))))
  {
    hide CloseAccess, RevokeSessions;
  }

  /** Who may be an owner, an administrator or an e-mail's account, in every reachable state. */
  lemma ReachableAccounts(s: Repo)
    requires Reachable(s) && s.accountsById != map[]
    ensures exists u ::
      && u in s.accountsById && s.accountsById[u].isServerOwner && PlatformAdministrator in s.accountsById[u].grants
      && (forall w :: w in s.accountsById && s.accountsById[w].isServerOwner ==> w == u)
    ensures forall e, u :: u in s.accountsById ==>
      ((e in s.accountsByEmail && s.accountsByEmail[e] == u) <==> s.accountsById[u].email == e)
    ensures forall c, p :: p in s.passkeysById.entries ==>
      ((c in s.passkeysByCredentialId && s.passkeysByCredentialId[c] == p)
        <==> s.passkeysById.entries[p].credentialId == c)
    ensures forall u :: u in s.accountsById ==> Distinct(s.accountsById[u].grants)
  {
    ReachableInv(s);
    var b :| b in s.bootstrapAccounts;
    var u := s.bootstrapAccounts[b];
    assert u in s.accountsById && s.accountsById[u].isServerOwner;
  }
}
