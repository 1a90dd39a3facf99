/** What holds over whole runs of the repository. */
module AuthRuns {
  import opened Collections
  import opened AuthState
  import opened AuthInvariant

  // ---- Deactivation ----

  /** In every reachable state a deactivated account has nothing left to authenticate with. */
  lemma DeactivationIsTotal(s: Repo, u: UserId)
    requires Reachable(s) && IsDeactivated(s.accountsById, u)
    ensures LiveSessions(s.sessions, u) == {}
    ensures OpenChallenges(s.challenges, u) == {}
    ensures LivePasskeys(s.passkeysById, u) == {}
  {
    ReachableInv(s);
  }

  /** Sessions never disappear, keep what they were created with, and `revokedAt` is written once. */
  ghost predicate SessionsOnlyClose(before: Sessions, after: Sessions) {
    forall v :: v in before.entries ==>
      && v in after.entries
      && after.entries[v].input == before.entries[v].input
      && after.entries[v].accountId == before.entries[v].accountId
      && after.entries[v].source == before.entries[v].source
      && (before.entries[v].revokedAt.Some? ==> after.entries[v] == before.entries[v])
  }

  /** Passkeys never disappear, their counter never falls, and `revokedAt` is written once. */
  ghost predicate PasskeysOnlyClose(before: Passkeys, after: Passkeys) {
    forall p :: p in before.entries ==>
      && p in after.entries
      && after.entries[p].credentialId == before.entries[p].credentialId
      && after.entries[p].accountId == before.entries[p].accountId
      && after.entries[p].signCount >= before.entries[p].signCount
      && (before.entries[p].revokedAt.Some? ==> after.entries[p] == before.entries[p])
  }

  /** A challenge keeps its account and its policy, counts only upwards, and once closed stays closed. */
  ghost predicate ChallengesOnlyClose(before: Challenges, after: Challenges) {
    forall c :: c in before.entries ==>
      && c in after.entries
      && after.entries[c].input == before.entries[c].input
      && after.entries[c].accountId == before.entries[c].accountId
      && after.entries[c].attempts >= before.entries[c].attempts
      && (before.entries[c].usedAt.Some? ==> after.entries[c].usedAt == before.entries[c].usedAt)
      && (!before.entries[c].Open() ==> !after.entries[c].Open())
  }

  /** The random source does not repeat a challenge identifier. */
  predicate FreshStep(s: Repo, op: Op) {
    op.OpIssue? ==> op.challenge.challengeId !in s.challenges.entries
  }

  ghost predicate FreshRun(s: Repo, ops: seq<Op>)
    decreases ops
  {
    ops == [] || (FreshStep(s, ops[0]) && FreshRun(Step(s, ops[0]), ops[1..]))
  }

  /** `newIds` says that no challenge identifier has been issued twice. */
  ghost predicate OnlyCloses(s: Repo, t: Repo, newIds: bool) {
    && SessionsOnlyClose(s.sessions, t.sessions)
    && PasskeysOnlyClose(s.passkeysById, t.passkeysById)
    && (newIds ==> ChallengesOnlyClose(s.challenges, t.challenges))
  }

  lemma OnlyClosesTrans(s: Repo, t: Repo, u: Repo, newIds: bool, rest: bool)
    requires OnlyCloses(s, t, newIds) && OnlyCloses(t, u, rest)
    ensures OnlyCloses(s, u, newIds && rest)
  {
  }

  lemma CloseAccessOnlyCloses(s: Repo, u: UserId, now: Time)
    ensures OnlyCloses(s, CloseAccess(s, u, now), true)
  {
  }

  lemma RevokeOneOnlyCloses(s: Repo, u: UserId, id: SessionId, now: Time)
    ensures OnlyCloses(s, RevokeOne(s, u, id, now).0, true)
  {
    hide OnlyCloses, RevokeSessions;
    SameAccessOnlyCloses(s, s);
    var found := FirstLiveSession(s.sessions, s.sessions.order, u, id);
    if found.Some? { RevokeSessionOnlyCloses(s, found.value, now); }
  }

  lemma RevokeAllOnlyCloses(s: Repo, u: UserId, now: Time)
    ensures OnlyCloses(s, RevokeAll(s, u, now).0, true)
  {
  }

  lemma SameAccessOnlyCloses(s: Repo, t: Repo)
    requires t.sessions == s.sessions && t.passkeysById == s.passkeysById && t.challenges == s.challenges
    ensures OnlyCloses(s, t, true)
  {
  }

  lemma ChangeStatusOnlyCloses(s: Repo, u: UserId, status: Status, now: Time)
    ensures OnlyCloses(s, ChangeStatus(s, u, status, now).0, true)
  {
    hide CloseAccess, OnlyCloses;
    SameAccessOnlyCloses(s, s);
    if u in s.accountsById {
      var t := PutAccount(s, u, s.accountsById[u].(status := status));
      SameAccessOnlyCloses(s, t);
      CloseAccessOnlyCloses(t, u, now);
      OnlyClosesTrans(s, t, CloseAccess(t, u, now), true, true);
    }
  }

  lemma AdministerOnlyCloses(s: Repo, owner: bool, request: Administration, now: Time)
    ensures OnlyCloses(s, Administer(s, owner, request, now).0, true)
  {
    hide OnlyCloses, CloseAccess, RevokeOne, RevokeAll, ChangeStatus;
    SameAccessOnlyCloses(s, s);
    match request
    case SecurityReset(u) => CloseAccessOnlyCloses(s, u, now);
    case RevokeSession(u, id) => RevokeOneOnlyCloses(s, u, id, now);
    case RevokeAllSessions(u) => RevokeAllOnlyCloses(s, u, now);
    case SetStatus(u, status) => ChangeStatusOnlyCloses(s, u, status, now);
    case _ => SameAccessOnlyCloses(s, Administer(s, owner, request, now).0);
  }

  lemma AdminOnlyCloses(s: Repo, actor: Verifier, now: Time, request: Administration)
    ensures OnlyCloses(s, AsAdministrator(s, actor, now, request).0, true)
  {
    assert OnlyCloses(s, s, true);
    hide Administer, OnlyCloses;
    if RequireAdministrator(s, actor, now).Some? {
      var t := RequireAdministrator(s, actor, now).value;
      AdministerOnlyCloses(t, OwnerActs(s, actor), request, now);
      TouchOnlyCloses(s, actor, now);
      OnlyClosesTrans(s, t, Administer(t, OwnerActs(s, actor), request, now).0, true, true);
    }
  }

  lemma SpendOnlyCloses(s: Repo, c: ChallengeId, now: Time, session: Session)
    requires c in s.challenges.entries && s.challenges.entries[c].Open()
    requires session.input.tokenVerifier !in s.sessions.entries
    ensures OnlyCloses(s, SpendChallenge(s, c, now, session), true)
  {
  }

  lemma WrongCodeOnlyCloses(s: Repo, c: ChallengeId)
    requires c in s.challenges.entries
    ensures OnlyCloses(s, CountWrongCode(s, c), true)
  {
  }

  lemma ConsumeOnlyCloses(s: Repo, c: ChallengeId, candidate: CodeVerifier, now: Time, input: SessionInput)
    ensures OnlyCloses(s, ConsumeChallenge(s, c, candidate, now, input).0, true)
  {
    assert OnlyCloses(s, s, true);
    hide SpendChallenge, CountWrongCode, OnlyCloses;
    if Answerable(s, c, now) {
      WrongCodeOnlyCloses(s, c);
      InvalidateOnlyCloses(s, c, now);
      if input.tokenVerifier !in s.sessions.entries {
        SpendOnlyCloses(s, c, now, NewSession(input, s.challenges.entries[c].accountId, None));
      }
    }
  }

  lemma NewSessionOnlyCloses(s: Repo, session: Session)
    requires session.input.tokenVerifier !in s.sessions.entries
    ensures OnlyCloses(s, PutSession(s, session), true)
  {
  }

  lemma RecordUseOnlyCloses(s: Repo, p: Passkey, now: Time, input: LoginInput)
    requires p.passkeyId in s.passkeysById.entries && s.passkeysById.entries[p.passkeyId] == p && p.Live()
    ensures OnlyCloses(s, RecordUse(s, p, now, input), true)
  {
  }

  lemma LoginOnlyCloses(s: Repo, now: Time, input: LoginInput)
    requires Inv(s)
    ensures OnlyCloses(s, CompletePasskeyLogin(s, now, input).0, true)
  {
    var r := CompletePasskeyLogin(s, now, input);
    if r.1.Ok? && r.1.value.Some? {
      InvBasics(s);
      hide Inv, OnlyCloses;
      var p := UsablePasskey(s, input.credentialId).value;
      RecordUseOnlyCloses(s, p, now, input);
      var t := RecordUse(s, p, now, input);
      NewSessionOnlyCloses(t, LoginSession(p.accountId, now, input.session));
      OnlyClosesTrans(s, t, r.0, true, true);
    }
  }

  lemma IssueOnlyCloses(s: Repo, email: Email, input: ChallengeInput, cooldown: int)
    ensures OnlyCloses(s, IssueEmailChallenge(s, email, input, cooldown).0, input.challengeId !in s.challenges.entries)
  {
  }

  lemma InvalidateOnlyCloses(s: Repo, c: ChallengeId, now: Time)
    ensures OnlyCloses(s, InvalidateChallenge(s, c, now), true)
  {
    hide InvalidateChallenges;
    if c in s.challenges.entries && s.challenges.entries[c].usedAt.None? {
      InvalidatingOnlyCloses(s.challenges, c, now);
    }
  }

  lemma InvalidatingOnlyCloses(challenges: Challenges, c: ChallengeId, now: Time)
    requires c in challenges.entries && challenges.entries[c].usedAt.None?
    ensures ChallengesOnlyClose(challenges, InvalidateChallenges(challenges, {c}, now))
  {
  }

  lemma TouchOnlyCloses(s: Repo, v: Verifier, now: Time)
    requires v in s.sessions.entries && s.sessions.entries[v].Live()
    ensures OnlyCloses(s, s.(sessions := s.sessions.Set(v, s.sessions.entries[v].Touched(now))), true)
  {
  }

  lemma RevokeSessionOnlyCloses(s: Repo, v: Verifier, now: Time)
    requires v in s.sessions.entries && s.sessions.entries[v].Live()
    ensures OnlyCloses(s, s.(sessions := RevokeSessions(s.sessions, {v}, now)), true)
  {
  }

  lemma AuthenticateOnlyCloses(s: Repo, v: Verifier, now: Time)
    ensures OnlyCloses(s, AuthenticateSession(s, v, now).0, true)
  {
    assert OnlyCloses(s, s, true);
    hide OnlyCloses, RevokeSessions;
    if v in s.sessions.entries && s.sessions.entries[v].Live() {
      TouchOnlyCloses(s, v, now);
      RevokeSessionOnlyCloses(s, v, now);
    }
  }

  lemma OidcOnlyCloses(s: Repo, u: UserId, source: Verifier, input: SessionInput)
    ensures OnlyCloses(s, CreateOidcSession(s, u, source, input).0, true)
  {
    hide SourceTaken, SessionIdTaken, ActiveAccount, OrderedMap.Valid;
  }

  lemma RegisterOnlyCloses(s: Repo, actor: Verifier, now: Time, input: PasskeyInput)
    ensures OnlyCloses(s, RegisterPasskey(s, actor, now, input).0, true)
  {
  }

  lemma RevokeByVerifierOnlyCloses(s: Repo, v: Verifier, now: Time)
    ensures OnlyCloses(s, RevokeSessionByVerifier(s, v, now).0, true)
  {
    hide OnlyCloses, RevokeSessions;
    SameAccessOnlyCloses(s, s);
    if v in s.sessions.entries && s.sessions.entries[v].Live() { RevokeSessionOnlyCloses(s, v, now); }
  }

  lemma BootstrapOnlyCloses(s: Repo, id: BootstrapId, u: UserId, email: Email, name: Text)
    ensures OnlyCloses(s, Bootstrap(s, id, u, email, name).0, true)
  {
    hide OnlyCloses;
    SameAccessOnlyCloses(s, Bootstrap(s, id, u, email, name).0);
  }

  /** No operation brings back what was revoked, used or invalidated. */
  lemma StepOnlyCloses(s: Repo, op: Op)
    requires Inv(s)
    ensures OnlyCloses(s, Step(s, op), FreshStep(s, op))
  {
    hide Inv, AuthenticateSession, IssueEmailChallenge, InvalidateChallenge, ConsumeChallenge,
         CompletePasskeyLogin, AsAdministrator, CreateOidcSession, RegisterPasskey, RevokeSessionByVerifier, Bootstrap;
    match op
    case OpAuthenticate(v, now) => AuthenticateOnlyCloses(s, v, now);
    case OpIssue(email, challenge, cooldown) => IssueOnlyCloses(s, email, challenge, cooldown);
    case OpInvalidate(c, now) => InvalidateOnlyCloses(s, c, now);
    case OpConsume(c, candidate, now, session) => ConsumeOnlyCloses(s, c, candidate, now, session);
    case OpLogin(now, login) => LoginOnlyCloses(s, now, login);
    case OpAdmin(v, now, request) => AdminOnlyCloses(s, v, now, request);
    case OpCreateOidc(u, source, session) => OidcOnlyCloses(s, u, source, session);
    case OpRevokeByVerifier(v, now) => RevokeByVerifierOnlyCloses(s, v, now);
    case OpRegister(v, now, passkey) => RegisterOnlyCloses(s, v, now, passkey);
    case OpBootstrap(id, u, email, name) => BootstrapOnlyCloses(s, id, u, email, name);
  }

  lemma {:induction false} RunOnlyCloses(s: Repo, ops: seq<Op>)
    requires Inv(s)
    ensures OnlyCloses(s, Run(s, ops), FreshRun(s, ops))
    decreases ops
  {
    if ops != [] {
      hide Step, Inv, OnlyCloses;
      StepOnlyCloses(s, ops[0]);
      StepKeepsInv(s, ops[0]);
      RunOnlyCloses(Step(s, ops[0]), ops[1..]);
      OnlyClosesTrans(s, Step(s, ops[0]), Run(s, ops), FreshStep(s, ops[0]), FreshRun(Step(s, ops[0]), ops[1..]));
    } else {
      assert OnlyCloses(s, s, true);
    }
  }

  /**
   * Deactivating an account is permanent for everything it had: whatever happens later, reactivation
   * included, none of its sessions, passkeys or challenges works again.
   */
  lemma DeactivationIsPermanent(s: Repo, ops: seq<Op>, u: UserId)
    requires Reachable(s) && IsDeactivated(s.accountsById, u)
    ensures forall v :: v in s.sessions.entries && s.sessions.entries[v].accountId == u ==>
      v in Run(s, ops).sessions.entries && !Run(s, ops).sessions.entries[v].Live()
    ensures forall p :: p in s.passkeysById.entries && s.passkeysById.entries[p].accountId == u ==>
      p in Run(s, ops).passkeysById.entries && !Run(s, ops).passkeysById.entries[p].Live()
    ensures FreshRun(s, ops) ==> forall c :: c in s.challenges.entries && s.challenges.entries[c].accountId == u ==>
      c in Run(s, ops).challenges.entries && !Run(s, ops).challenges.entries[c].Open()
  {
    ReachableInv(s);
    RunOnlyCloses(s, ops);
  }
}
