/**
 * Who gets in, who is kept out and who may administer, over whole runs of the repository: what the
 * outcomes of its operations mean for the people behind the accounts.
 */
module AuthAccess {
  import opened Collections
  import opened AuthState
  import opened AuthInvariant
  import opened AuthRuns
  import opened AuthOutcomes

  // ---- Accounts change only as administrators ask ----

  /** No operation but bootstrapping and administration touches an account. */
  lemma OthersKeepAccounts(s: Repo, op: Op)
    requires !op.OpBootstrap? && !op.OpAdmin?
    ensures Step(s, op).accountsById == s.accountsById && Step(s, op).accountsByEmail == s.accountsByEmail
  {
    hide OrderedMap.Valid, RevokeSessions, InvalidateChallenges, SessionIdTaken, SourceTaken;
    hide OpenChallenges, SessionPrincipal, CounterStatus, AsAdministrator, Bootstrap;
    match op
    case OpLogin(now, login) => LoginKeepsAccounts(s, now, login);
    case OpConsume(c, candidate, now, session) => ConsumeKeepsAccounts(s, c, candidate, now, session);
    case _ =>
  }

  lemma LoginKeepsAccounts(s: Repo, now: Time, login: LoginInput)
    ensures
      var t := CompletePasskeyLogin(s, now, login).0;
      t.accountsById == s.accountsById && t.accountsByEmail == s.accountsByEmail
  {
    hide OrderedMap.Valid, SessionIdTaken;
  }

  lemma ConsumeKeepsAccounts(s: Repo, c: ChallengeId, candidate: CodeVerifier, now: Time, session: SessionInput)
    ensures
      var t := ConsumeChallenge(s, c, candidate, now, session).0;
      t.accountsById == s.accountsById && t.accountsByEmail == s.accountsByEmail
  {
    hide OrderedMap.Valid, InvalidateChallenges;
  }

  /** What a request can do to the account `u`: make it, give or take a grant, or set one of its fields. */
  ghost predicate AccountFollows(s: Repo, t: Repo, actor: Verifier, now: Time, request: Administration, u: UserId) {
    && (u in s.accountsById ==> u in t.accountsById)
    && (u in t.accountsById && (u !in s.accountsById || t.accountsById[u] != s.accountsById[u]) ==>
          MayAdminister(s, actor, now))
    && (u in s.accountsById && t.accountsById[u].status != s.accountsById[u].status ==>
          request == SetStatus(u, t.accountsById[u].status))
    && (u in t.accountsById && PlatformAdministrator in t.accountsById[u].grants ==>
          || (u in s.accountsById && PlatformAdministrator in s.accountsById[u].grants)
          || (request == GiveGrant(u, PlatformAdministrator) && ActsAsOwner(s, actor)))
  }

  lemma AdminAccountFollows(s: Repo, actor: Verifier, now: Time, request: Administration, u: UserId)
    requires Inv(s)
    ensures AccountFollows(s, AsAdministrator(s, actor, now, request).0, actor, now, request, u)
  {
    hide Inv, AsAdministrator, MayAdminister, OnlyTouched, ClosedFor, IsWithout, ActsAsOwner, OneRevoked, FirstMatch;
    match request
    case SecurityReset(w) => SecurityResetOutcome(s, actor, now, w);
    case CreateAccount(w, email, name) => CreateAccountOutcome(s, actor, now, w, email, name);
    case GiveGrant(w, g) => GiveGrantFollows(s, actor, now, w, g, u);
    case TakeGrant(w, g) => TakeGrantFollows(s, actor, now, w, g, u);
    case RevokeAllSessions(w) => RevokeAllKeepsAccounts(s, actor, now, w);
    case RevokeSession(w, id) => RevokeOneKeepsAccounts(s, actor, now, w, id);
    case SetStatus(w, status) => SetStatusOutcome(s, actor, now, w, status);
    case SetDomainStatus(w, domain) => SetDomainStatusOutcome(s, actor, now, w, domain);
    case UpdateAccount(w, email, name) => UpdateAccountOutcome(s, actor, now, w, email, name);
  }

  lemma GiveGrantFollows(s: Repo, actor: Verifier, now: Time, w: UserId, g: Grant, u: UserId)
    requires Inv(s)
    ensures AccountFollows(s, AsAdministrator(s, actor, now, GiveGrant(w, g)).0, actor, now, GiveGrant(w, g), u)
  {
    hide Inv, AsAdministrator, MayAdminister, OnlyTouched, ActsAsOwner;
    GiveGrantOutcome(s, actor, now, w, g);
    if w in s.accountsById {
      var t := AsAdministrator(s, actor, now, GiveGrant(w, g)).0;
      var before, after := s.accountsById[w].grants, t.accountsById[w].grants;
      if PlatformAdministrator in after && PlatformAdministrator !in before {
        assert after != before;
        assert g in after && before <= after && |after| == |before| + 1;
        var i :| 0 <= i < |after| && after[i] == PlatformAdministrator;
        assert i == |before|;
        var j :| 0 <= j < |after| && after[j] == g;
        assert g !in before;
        assert j == |before|;
      }
    }
  }

  lemma TakeGrantFollows(s: Repo, actor: Verifier, now: Time, w: UserId, g: Grant, u: UserId)
    requires Inv(s)
    ensures AccountFollows(s, AsAdministrator(s, actor, now, TakeGrant(w, g)).0, actor, now, TakeGrant(w, g), u)
  {
    hide Inv, AsAdministrator, MayAdminister, OnlyTouched, ActsAsOwner;
    TakeGrantOutcome(s, actor, now, w, g);
  }

  lemma RevokeAllKeepsAccounts(s: Repo, actor: Verifier, now: Time, u: UserId)
    requires Inv(s)
    ensures AsAdministrator(s, actor, now, RevokeAllSessions(u)).0.accountsById == s.accountsById
  {
    hide Inv, AsAdministrator, MayAdminister, OnlyTouched;
    var _ := ThroughTheGate(s, actor, now, RevokeAllSessions(u));
  }

  lemma RevokeOneKeepsAccounts(s: Repo, actor: Verifier, now: Time, u: UserId, id: SessionId)
    requires Inv(s)
    ensures AsAdministrator(s, actor, now, RevokeSession(u, id)).0.accountsById == s.accountsById
  {
    hide Inv, AsAdministrator, MayAdminister, OnlyTouched;
    var _ := ThroughTheGate(s, actor, now, RevokeSession(u, id));
  }

  // ---- Deactivation ----

  /** An administrator is asked to activate the account. */
  predicate Reactivates(op: Op, u: UserId) {
    op.OpAdmin? && op.request == SetStatus(u, Active)
  }

  lemma StaysDeactivated(s: Repo, op: Op, u: UserId)
    requires Inv(s) && IsDeactivated(s.accountsById, u) && !Reactivates(op, u)
    ensures IsDeactivated(Step(s, op).accountsById, u)
  {
    hide Inv, AsAdministrator, MayAdminister, ActsAsOwner;
    if op.OpAdmin? {
      AdminAccountFollows(s, op.v, op.now, op.request, u);
    } else if op.OpBootstrap? {
      BootstrapOutcome(s, op.id, op.u, op.email, op.name);
    } else {
      OthersKeepAccounts(s, op);
    }
  }

  lemma {:induction false} StaysDeactivatedRun(s: Repo, ops: seq<Op>, u: UserId)
    requires Inv(s) && IsDeactivated(s.accountsById, u) && forall i :: 0 <= i < |ops| ==> !Reactivates(ops[i], u)
    ensures Inv(Run(s, ops)) && IsDeactivated(Run(s, ops).accountsById, u)
    decreases ops
  {
    hide Inv, Step;
    if ops != [] {
      StepKeepsInv(s, ops[0]);
      StaysDeactivated(s, ops[0], u);
      StaysDeactivatedRun(Step(s, ops[0]), ops[1..], u);
    }
  }

  /** There is no way in for the account: no session, challenge, bridge or passkey of it does anything. */
  ghost predicate ShutOut(s: Repo, u: UserId) {
    && (forall v, now :: v in s.sessions.entries && s.sessions.entries[v].accountId == u ==>
          AuthenticateSession(s, v, now).1 == None && ValidateSession(s, v, now) == None)
    && (forall email, input, cooldown :: email in s.accountsByEmail && s.accountsByEmail[email] == u ==>
          IssueEmailChallenge(s, email, input, cooldown) == (s, Neutral))
    && (forall c, candidate, now, input :: c in s.challenges.entries && s.challenges.entries[c].accountId == u ==>
          ConsumeChallenge(s, c, candidate, now, input).1 == Ok(Invalid))
    && (forall source, input :: CreateOidcSession(s, u, source, input) == (s, Ok(false)))
    && (forall credential, now ::
          credential in s.passkeysByCredentialId && s.passkeysByCredentialId[credential] in s.passkeysById.entries
          && s.passkeysById.entries[s.passkeysByCredentialId[credential]].accountId == u ==>
            ReadPasskey(s, credential, now) == None)
    && (forall now, input: LoginInput ::
          input.credentialId in s.passkeysByCredentialId
          && s.passkeysByCredentialId[input.credentialId] in s.passkeysById.entries
          && s.passkeysById.entries[s.passkeysByCredentialId[input.credentialId]].accountId == u ==>
            CompletePasskeyLogin(s, now, input) == (s, Ok(None)))
  }

  lemma DeactivatedIsShutOut(s: Repo, u: UserId)
    requires Inv(s) && IsDeactivated(s.accountsById, u)
    ensures ShutOut(s, u)
  {
    hide Inv, AuthenticateSession, ValidateSession, IssueEmailChallenge, ConsumeChallenge, CreateOidcSession;
    hide ReadPasskey, CompletePasskeyLogin, Describes, OnlySession, OnlyChallenge, SpentFor;
    forall v, now | v in s.sessions.entries && s.sessions.entries[v].accountId == u
      ensures AuthenticateSession(s, v, now).1 == None && ValidateSession(s, v, now) == None
    {
      AuthenticateOutcome(s, v, now);
      ValidateOutcome(s, v, now);
    }
    forall email, input, cooldown | email in s.accountsByEmail && s.accountsByEmail[email] == u
      ensures IssueEmailChallenge(s, email, input, cooldown) == (s, Neutral)
    {
      IssueOutcome(s, email, input, cooldown);
    }
    forall c, candidate, now, input | c in s.challenges.entries && s.challenges.entries[c].accountId == u
      ensures ConsumeChallenge(s, c, candidate, now, input).1 == Ok(Invalid)
    {
      ConsumeOutcome(s, c, candidate, now, input);
    }
    forall source, input ensures CreateOidcSession(s, u, source, input) == (s, Ok(false)) {
      OidcOutcome(s, u, source, input);
    }
    forall credential, now |
      credential in s.passkeysByCredentialId && s.passkeysByCredentialId[credential] in s.passkeysById.entries
      && s.passkeysById.entries[s.passkeysByCredentialId[credential]].accountId == u
      ensures ReadPasskey(s, credential, now) == None
    {
      ReadOutcome(s, credential, now);
    }
    forall now, input: LoginInput |
      input.credentialId in s.passkeysByCredentialId
      && s.passkeysByCredentialId[input.credentialId] in s.passkeysById.entries
      && s.passkeysById.entries[s.passkeysByCredentialId[input.credentialId]].accountId == u
      ensures CompletePasskeyLogin(s, now, input) == (s, Ok(None))
    {
      LoginOutcome(s, now, input);
    }
  }

  /**
   * Deactivating shuts the account out: from then on, through whatever happens, until an
   * administrator is asked to activate it again, there is no way in for it.
   */
  lemma DeactivationShutsOut(s: Repo, actor: Verifier, now: Time, u: UserId, ops: seq<Op>)
    requires Reachable(s) && AsAdministrator(s, actor, now, SetStatus(u, Deactivated)).1.Ok?
    requires forall i :: 0 <= i < |ops| ==> !Reactivates(ops[i], u)
    ensures
      var t := AsAdministrator(s, actor, now, SetStatus(u, Deactivated)).0;
      ShutOut(t, u) && ShutOut(Run(t, ops), u)
  {
    hide Inv, AsAdministrator, ShutOut;
    ReachableInv(s);
    SetStatusOutcome(s, actor, now, u, Deactivated);
    AdminKeepsInv(s, actor, now, SetStatus(u, Deactivated));
    var t := AsAdministrator(s, actor, now, SetStatus(u, Deactivated)).0;
    StaysDeactivatedRun(t, ops, u);
    DeactivatedIsShutOut(t, u);
    DeactivatedIsShutOut(Run(t, ops), u);
  }

  /**
   * Activating an account lets it in again, by new means: past the cooldown its address is sent a
   * challenge, and an unused token of the bridge opens a session. What it had before stays closed.
   */
  lemma ReactivationReopens(
      s: Repo, actor: Verifier, now: Time, u: UserId, input: ChallengeInput, cooldown: int, source: Verifier,
      session: SessionInput)
    requires Reachable(s) && AsAdministrator(s, actor, now, SetStatus(u, Active)).1.Ok?
    ensures
      var t := AsAdministrator(s, actor, now, SetStatus(u, Active)).0;
      && u in s.accountsById && IsActive(t, u)
      && ((u in s.latestChallengeAt ==> s.latestChallengeAt[u] + cooldown <= input.issuedAt) ==>
            IssueEmailChallenge(t, s.accountsById[u].email, input, cooldown).1
              == Issued(input.challengeId, s.accountsById[u].email))
      && ((forall v :: v in s.sessions.entries ==>
             && s.sessions.entries[v].source != Some(source) && v != session.tokenVerifier
             && s.sessions.entries[v].input.sessionId != session.sessionId) ==>
            CreateOidcSession(t, u, source, session).1 == Ok(true))
      && (IsDeactivated(s.accountsById, u) ==>
            forall v :: v in s.sessions.entries && s.sessions.entries[v].accountId == u ==>
              AuthenticateSession(t, v, now).1 == None)
  {
    hide Inv, AsAdministrator, IssueEmailChallenge, CreateOidcSession, AuthenticateSession, OthersClosed, OnlyTouched;
    hide OnlySession, ClosedFor, RevokedIn, Describes, MayAdminister;
    ReachableInv(s);
    SetStatusOutcome(s, actor, now, u, Active);
    AdminKeepsInv(s, actor, now, SetStatus(u, Active));
    var t := AsAdministrator(s, actor, now, SetStatus(u, Active)).0;
    AddressLeadsHere(s, u);
    IssueOutcome(t, s.accountsById[u].email, input, cooldown);
    SameNames(s, t, actor, now);
    OidcOutcome(t, u, source, session);
    if IsDeactivated(s.accountsById, u) {
      forall v | v in s.sessions.entries && s.sessions.entries[v].accountId == u
        ensures AuthenticateSession(t, v, now).1 == None
      {
        NothingLive(s, u, v);
        AuthenticateOutcome(t, v, now);
      }
    }
  }

  lemma AddressLeadsHere(s: Repo, u: UserId)
    requires Inv(s) && u in s.accountsById
    ensures s.accountsById[u].email in s.accountsByEmail && s.accountsByEmail[s.accountsById[u].email] == u
  {
  }

  /** Touching a session changes no name, source, account or revocation. */
  lemma SameNames(s: Repo, t: Repo, actor: Verifier, now: Time)
    requires OnlyTouched(s.sessions, t.sessions, actor, now)
    ensures t.sessions.entries.Keys == s.sessions.entries.Keys
    ensures forall v :: v in s.sessions.entries ==>
      && t.sessions.entries[v].source == s.sessions.entries[v].source
      && t.sessions.entries[v].input == s.sessions.entries[v].input
      && t.sessions.entries[v].revokedAt == s.sessions.entries[v].revokedAt
  {
  }

  lemma NothingLive(s: Repo, u: UserId, v: Verifier)
    requires Inv(s) && IsDeactivated(s.accountsById, u)
    requires v in s.sessions.entries && s.sessions.entries[v].accountId == u
    ensures s.sessions.entries[v].revokedAt != None
  {
  }

  // ---- Administration ----

  predicate Administers(s: Repo, u: UserId) {
    u in s.accountsById && PlatformAdministrator in s.accountsById[u].grants
  }

  /** The operation gives `u` administration: the very first account, or the owner's own act. */
  ghost predicate GivesAdministration(s: Repo, op: Op, u: UserId) {
    || (s.accountsById == map[] && op.OpBootstrap? && op.u == u)
    || (&& op.OpAdmin? && op.request == GiveGrant(u, PlatformAdministrator)
        && MayAdminister(s, op.v, op.now) && ActsAsOwner(s, op.v))
  }

  lemma StepGivesAdministration(s: Repo, op: Op, u: UserId)
    requires Inv(s) && !Administers(s, u) && Administers(Step(s, op), u)
    ensures GivesAdministration(s, op, u)
  {
    hide Inv, AsAdministrator, MayAdminister, ActsAsOwner;
    if op.OpAdmin? {
      AdminAccountFollows(s, op.v, op.now, op.request, u);
    } else if op.OpBootstrap? {
      BootstrapOutcome(s, op.id, op.u, op.email, op.name);
    } else {
      OthersKeepAccounts(s, op);
    }
  }

  /**
   * Only the owner makes administrators: whoever administers at the end of a run and did not at its
   * start was made one at some operation of it, by bootstrapping the very first account or by the
   * owner, acting on a session that might administer.
   */
  lemma {:induction false} AdministratorsAreMade(s: Repo, ops: seq<Op>, u: UserId)
    requires Inv(s) && !Administers(s, u) && Administers(Run(s, ops), u)
    ensures exists i :: 0 <= i < |ops| && GivesAdministration(Run(s, ops[..i]), ops[i], u)
    decreases ops
  {
    hide Inv, Step, Administers, GivesAdministration;
    var t := Step(s, ops[0]);
    if Administers(t, u) {
      StepGivesAdministration(s, ops[0], u);
      assert ops[..0] == [];
    } else {
      StepKeepsInv(s, ops[0]);
      AdministratorsAreMade(t, ops[1..], u);
      var i :| 0 <= i < |ops[1..]| && GivesAdministration(Run(t, ops[1..][..i]), ops[1..][i], u);
      assert ops[..i + 1][1..] == ops[1..][..i];
      assert ops[i + 1] == ops[1..][i];
    }
  }

  /** A session may manage accounts, as it is told, exactly when administrative requests get past the gate. */
  lemma ManagersAreAdmitted(s: Repo, v: Verifier, now: Time, request: Administration)
    requires Inv(s)
    ensures
      var told := ValidateSession(s, v, now);
      && (told.Some? && told.value.canManageAccounts <==> MayAdminister(s, v, now))
      && (!(told.Some? && told.value.canManageAccounts) ==>
            AsAdministrator(s, v, now, request) == (s, Thrown(Authorization)))
  {
    hide Inv, AsAdministrator, ValidateSession;
    ValidateOutcome(s, v, now);
    var _ := ThroughTheGate(s, v, now, request);
  }

  /** A new account is let in by its address at once; a moved one by its new address and not by its old one. */
  lemma NewAddressWorks(
      s: Repo, actor: Verifier, now: Time, u: UserId, email: Email, name: Text, input: ChallengeInput, cooldown: int)
    requires Inv(s)
    ensures
      var (t, r) := AsAdministrator(s, actor, now, CreateAccount(u, email, name));
      r.Ok? ==> ((u in s.latestChallengeAt ==> s.latestChallengeAt[u] + cooldown <= input.issuedAt) ==>
        IssueEmailChallenge(t, email, input, cooldown).1 == Issued(input.challengeId, email))
    ensures
      var (t, r) := AsAdministrator(s, actor, now, UpdateAccount(u, email, name));
      r.Ok? ==>
        && u in s.accountsById
        && (s.accountsById[u].email != email ==>
              IssueEmailChallenge(t, s.accountsById[u].email, input, cooldown).1 == Neutral)
        && (IsActive(s, u) && (u in s.latestChallengeAt ==> s.latestChallengeAt[u] + cooldown <= input.issuedAt) ==>
              IssueEmailChallenge(t, email, input, cooldown).1 == Issued(input.challengeId, email))
  {
    hide Inv, AsAdministrator, IssueEmailChallenge, MayAdminister, OnlyTouched, OthersClosed;
    CreateAccountOutcome(s, actor, now, u, email, name);
    AdminKeepsInv(s, actor, now, CreateAccount(u, email, name));
    IssueOutcome(AsAdministrator(s, actor, now, CreateAccount(u, email, name)).0, email, input, cooldown);
    UpdateAccountOutcome(s, actor, now, u, email, name);
    AdminKeepsInv(s, actor, now, UpdateAccount(u, email, name));
    var moved := AsAdministrator(s, actor, now, UpdateAccount(u, email, name)).0;
    IssueOutcome(moved, email, input, cooldown);
    if u in s.accountsById { IssueOutcome(moved, s.accountsById[u].email, input, cooldown); }
  }

  // ---- What was closed never works again, what was opened works ----

  /** A session that was revoked by its token never acts again. */
  lemma RevokedNeverActs(s: Repo, v: Verifier, now: Time, ops: seq<Op>, at: Time)
    requires Inv(s) && v in s.sessions.entries
    ensures
      var t := Run(RevokeSessionByVerifier(s, v, now).0, ops);
      AuthenticateSession(t, v, at) == (t, None) && ValidateSession(t, v, at) == None
  {
    hide Inv, RevokeSessionByVerifier, AuthenticateSession, ValidateSession;
    var revoked := RevokeSessionByVerifier(s, v, now).0;
    RevokeByVerifierOutcome(s, v, now);
    RevokeByVerifierKeepsInv(s, v, now);
    RunOnlyCloses(revoked, ops);
    RunKeepsInv(revoked, ops);
    AuthenticateOutcome(Run(revoked, ops), v, at);
    ValidateOutcome(Run(revoked, ops), v, at);
  }

  /**
   * Issuing a challenge makes the account's earlier ones worthless: over every later run without
   * repeated ids no code opens them.
   */
  lemma OnlyTheNewestOpens(
      s: Repo, email: Email, input: ChallengeInput, cooldown: int, c: ChallengeId, ops: seq<Op>,
      candidate: CodeVerifier, at: Time, session: SessionInput)
    requires Inv(s) && IssueEmailChallenge(s, email, input, cooldown).1.Issued?
    requires c in s.challenges.entries && s.challenges.entries[c].accountId == s.accountsByEmail[email]
    requires c != input.challengeId && FreshRun(IssueEmailChallenge(s, email, input, cooldown).0, ops)
    ensures
      var t := Run(IssueEmailChallenge(s, email, input, cooldown).0, ops);
      ConsumeChallenge(t, c, candidate, at, session) == (t, Ok(Invalid))
  {
    hide Inv, IssueEmailChallenge, ConsumeChallenge, SpentFor, OnlyChallenge, SessionsOnlyClose, PasskeysOnlyClose;
    var issued := IssueEmailChallenge(s, email, input, cooldown).0;
    IssueOutcome(s, email, input, cooldown);
    IssueKeepsInv(s, email, input, cooldown);
    RunOnlyCloses(issued, ops);
    RunKeepsInv(issued, ops);
    ConsumeOutcome(Run(issued, ops), c, candidate, at, session);
  }

  /** The same for a challenge that was taken back, unless it had been used. */
  lemma TakenBackNeverOpens(
      s: Repo, c: ChallengeId, now: Time, ops: seq<Op>, candidate: CodeVerifier, at: Time, session: SessionInput)
    requires Inv(s) && c in s.challenges.entries && FreshRun(InvalidateChallenge(s, c, now), ops)
    ensures
      var t := Run(InvalidateChallenge(s, c, now), ops);
      ConsumeChallenge(t, c, candidate, at, session) == (t, Ok(Invalid))
  {
    hide Inv, InvalidateChallenge, ConsumeChallenge, SpentFor, OnlyChallenge, SessionsOnlyClose, PasskeysOnlyClose;
    var closed := InvalidateChallenge(s, c, now);
    InvalidateOutcome(s, c, now);
    ChallengeThere(s, closed, c);
    InvalidateKeepsInv(s, c, now);
    RunOnlyCloses(closed, ops);
    RunKeepsInv(closed, ops);
    ConsumeOutcome(Run(closed, ops), c, candidate, at, session);
  }

  lemma ChallengeThere(s: Repo, t: Repo, c: ChallengeId)
    requires OnlyChallenge(s, t, c)
    ensures c in t.challenges.entries
  {
  }

  /** A registered passkey logs its account in, with the counter it was registered with. */
  lemma RegisteredLogsIn(s: Repo, actor: Verifier, now: Time, input: PasskeyInput, at: Time, login: LoginInput)
    requires Inv(s) && RegisterPasskey(s, actor, now, input).1.Ok? && now <= at
    requires login.credentialId == input.credentialId && login.userVerified
    requires login.session.tokenVerifier !in s.sessions.entries
    requires forall v :: v in s.sessions.entries ==>
      s.sessions.entries[v].input.sessionId != login.session.sessionId
    ensures
      var t := RegisterPasskey(s, actor, now, input).0;
      var read := ReadPasskey(t, input.credentialId, at);
      && read == Some(Credential(input.passkeyId, s.sessions.entries[actor].accountId, input.credentialId,
           input.signCount))
      && (login.expectedSignCount == input.signCount ==>
            var (after, r) := CompletePasskeyLogin(t, at, login);
            && r.Ok? && r.value.Some? && r.value.value.accountId == s.sessions.entries[actor].accountId
            && (at < login.session.absoluteExpiresAt && login.session.idleLifetime > 0 ==>
                  MayAct(after, login.session.tokenVerifier, at)))
  {
    hide Inv, RegisterPasskey, ReadPasskey, CompletePasskeyLogin;
    RegisterOutcome(s, actor, now, input);
    RegisterKeepsInv(s, actor, now, input);
    var t := RegisterPasskey(s, actor, now, input).0;
    ReadOutcome(t, input.credentialId, at);
    LoginOutcome(t, at, login);
  }

  // ---- Every stage is reached ----

  lemma ThreeOps(s: Repo, a: Op, b: Op, c: Op)
    ensures Run(s, [a, b, c]) == Step(Step(Step(s, a), b), c)
  {
    hide Step;
    assert [a, b, c][1..] == [b, c] && [b, c][1..] == [c] && [c][1..] == [];
    assert Run(Step(Step(s, a), b), [c]) == Step(Step(Step(s, a), b), c);
    assert Run(Step(s, a), [b, c]) == Run(Step(Step(s, a), b), [c]);
  }

  /**
   * From nothing: whoever is bootstrapped and answers the challenge sent to the address administers,
   * as the owner.
   */
  lemma OwnersCanStart(
      id: BootstrapId, u: UserId, email: Email, name: Text, challenge: ChallengeInput, cooldown: int, now: Time,
      session: SessionInput)
    requires now < challenge.expiresAt && challenge.maxAttempts > 0
    requires session.issuedAt <= now < session.absoluteExpiresAt && now < session.issuedAt + session.idleLifetime
    ensures
      var t := Run(EMPTY, [OpBootstrap(id, u, email, name), OpIssue(email, challenge, cooldown),
                           OpConsume(challenge.challengeId, challenge.codeVerifier, now, session)]);
      && Reachable(t) && MayAdminister(t, session.tokenVerifier, now) && ActsAsOwner(t, session.tokenVerifier)
      && t.accountsById.Keys == {u} && t.accountsByEmail == map[email := u]
  {
    hide Bootstrap, IssueEmailChallenge, ConsumeChallenge, Inv;
    InvEmpty();
    var first, second := OpBootstrap(id, u, email, name), OpIssue(email, challenge, cooldown);
    var third := OpConsume(challenge.challengeId, challenge.codeVerifier, now, session);
    ThreeOps(EMPTY, first, second, third);
    BootstrapOutcome(EMPTY, id, u, email, name);
    StepKeepsInv(EMPTY, first);
    var made := Step(EMPTY, first);
    BootstrapIssuesNothing(id, u, email, name);
    IssueOutcome(made, email, challenge, cooldown);
    StepKeepsInv(made, second);
    var issued := Step(made, second);
    ConsumeOutcome(issued, challenge.challengeId, challenge.codeVerifier, now, session);
  }

  lemma BootstrapIssuesNothing(id: BootstrapId, u: UserId, email: Email, name: Text)
    ensures
      var t := Bootstrap(EMPTY, id, u, email, name).0;
      t.latestChallengeAt == map[] && t.sessions == EMPTY.sessions && t.challenges == EMPTY.challenges
  {
  }

  /** An administrator's requests are steps of a run, and so reach accounts made, deactivated and active again. */
  lemma AccountsCanBeAdministered(s: Repo, v: Verifier, now: Time, u: UserId, email: Email, name: Text)
    requires Reachable(s) && MayAdminister(s, v, now) && u !in s.accountsById && email !in s.accountsByEmail
    requires s.sessions.entries[v].input.idleLifetime > 0 && s.sessions.entries[v].input.issuedAt <= now
    ensures
      var made := Step(s, OpAdmin(v, now, CreateAccount(u, email, name)));
      var closed := Step(made, OpAdmin(v, now, SetStatus(u, Deactivated)));
      var open := Step(closed, OpAdmin(v, now, SetStatus(u, Active)));
      IsActive(made, u) && IsDeactivated(closed.accountsById, u) && IsActive(open, u)
  {
    hide AsAdministrator, Inv, OnlyTouched, ClosedFor;
    ReachableInv(s);
    CreateAccountOutcome(s, v, now, u, email, name);
    StillAdministers(s, v, now, CreateAccount(u, email, name), u);
    var made := Step(s, OpAdmin(v, now, CreateAccount(u, email, name)));
    SetStatusOutcome(made, v, now, u, Deactivated);
    StillAdministers(made, v, now, SetStatus(u, Deactivated), u);
    var closed := Step(made, OpAdmin(v, now, SetStatus(u, Deactivated)));
    SetStatusOutcome(closed, v, now, u, Active);
  }

  /** Making another account or setting its status leaves the administrator in place. */
  lemma StillAdministers(s: Repo, v: Verifier, now: Time, request: Administration, u: UserId)
    requires Inv(s) && MayAdminister(s, v, now) && s.sessions.entries[v].accountId != u
    requires s.sessions.entries[v].input.idleLifetime > 0
    requires request.SetStatus? || request.CreateAccount?
    requires if request.SetStatus? then request.userId == u && u in s.accountsById
      else request.userId == u && u !in s.accountsById && request.email !in s.accountsByEmail
    ensures
      var t := AsAdministrator(s, v, now, request).0;
      && Inv(t) && MayAdminister(t, v, now) && t.sessions.entries[v].accountId != u
      && t.sessions.entries[v].input.idleLifetime > 0
  {
    hide AsAdministrator, Inv;
    AdminKeepsInv(s, v, now, request);
    if request.SetStatus? {
      SetStatusOutcome(s, v, now, u, request.status);
    } else {
      CreateAccountOutcome(s, v, now, u, request.email, request.displayName);
    }
  }
}
