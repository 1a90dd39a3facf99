/** What every operation of the repository keeps, whoever calls it and whatever the clock says. */
module AuthInvariant {
  import opened Collections
  import opened AuthState

  ghost predicate Distinct<T>(s: seq<T>) {
    forall i, j :: 0 <= i < j < |s| ==> s[i] != s[j]
  }

  predicate IsDeactivated(accounts: Accounts, u: UserId) {
    u in accounts && accounts[u].status.Deactivated?
  }

  /** The e-mail and identifier indexes are inverse, and no grant repeats. */
  ghost predicate AccountsOk(byEmail: map<Email, UserId>, accounts: Accounts) {
    && (forall u :: u in accounts ==>
          var a := accounts[u];
          a.userId == u && a.email in byEmail && byEmail[a.email] == u && Distinct(a.grants))
    && (forall e :: e in byEmail ==> byEmail[e] in accounts && accounts[byEmail[e]].email == e)
  }

  /** Exactly one server owner once any account exists, and it is a platform administrator. */
  ghost predicate OwnerOk(accounts: Accounts, bootstrap: map<BootstrapId, UserId>) {
    && (accounts == map[] <==> bootstrap == map[])
    && (forall b, c :: b in bootstrap && c in bootstrap ==> b == c)
    && (forall b :: b in bootstrap ==> bootstrap[b] in accounts && accounts[bootstrap[b]].isServerOwner)
    && (forall u :: u in accounts && accounts[u].isServerOwner ==>
          u in bootstrap.Values && PlatformAdministrator in accounts[u].grants)
  }

  /** The idle bound of a session is always the one its last touch implies. */
  predicate IdleRule(session: Session) {
    session.idleExpiresAt == Min(session.input.absoluteExpiresAt, session.lastSeenAt + session.input.idleLifetime)
  }

  /** A deactivated account has no unrevoked session. */
  ghost predicate SessionsOk(sessions: Sessions, accounts: Accounts) {
    && sessions.Valid()
    && (forall v :: v in sessions.entries ==>
          var session := sessions.entries[v];
          && session.input.tokenVerifier == v && session.accountId in accounts && IdleRule(session)
          && (session.Live() ==> !IsDeactivated(accounts, session.accountId)))
  }

  /**
   * A challenge is never both used and invalidated and never counts more wrong codes than allowed;
   * an account has at most one open challenge and a deactivated account has none.
   */
  ghost predicate ChallengesOk(challenges: Challenges, accounts: Accounts) {
    && challenges.Valid()
    && (forall c :: c in challenges.entries ==>
          var challenge := challenges.entries[c];
          && challenge.input.challengeId == c && challenge.accountId in accounts
          && (challenge.usedAt.None? || challenge.invalidatedAt.None?)
          && challenge.attempts <= challenge.input.maxAttempts
          && (challenge.Open() ==> !IsDeactivated(accounts, challenge.accountId)))
    && (forall c, d ::
          (&& c in challenges.entries && d in challenges.entries
           && challenges.entries[c].Open() && challenges.entries[d].Open()
           && challenges.entries[c].accountId == challenges.entries[d].accountId) ==> c == d)
  }

  /** The two passkey indexes name the same records; a deactivated account has no unrevoked passkey. */
  ghost predicate PasskeysOk(passkeys: Passkeys, byCredential: map<CredentialId, PasskeyId>, accounts: Accounts) {
    && passkeys.Valid()
    && (forall p :: p in passkeys.entries ==>
          var k := passkeys.entries[p];
          && k.passkeyId == p && k.accountId in accounts
          && k.credentialId in byCredential && byCredential[k.credentialId] == p
          && (k.Live() ==> !IsDeactivated(accounts, k.accountId)))
    && (forall c :: c in byCredential ==>
          byCredential[c] in passkeys.entries && passkeys.entries[byCredential[c]].credentialId == c)
  }

  ghost predicate Inv(s: Repo) {
    && AccountsOk(s.accountsByEmail, s.accountsById)
    && OwnerOk(s.accountsById, s.bootstrapAccounts)
    && SessionsOk(s.sessions, s.accountsById)
    && ChallengesOk(s.challenges, s.accountsById)
    && PasskeysOk(s.passkeysById, s.passkeysByCredentialId, s.accountsById)
  }

  /** The part of the invariant that the program's own steps rely on. */
  lemma InvBasics(s: Repo)
    requires Inv(s)
    ensures s.sessions.Valid() && s.challenges.Valid() && s.passkeysById.Valid()
    ensures forall v :: v in s.sessions.entries ==>
      s.sessions.entries[v].input.tokenVerifier == v && s.sessions.entries[v].accountId in s.accountsById
    ensures forall c :: c in s.challenges.entries ==> s.challenges.entries[c].accountId in s.accountsById
    ensures forall u :: u in s.accountsById ==> s.accountsById[u].userId == u
    ensures forall e :: e in s.accountsByEmail ==> s.accountsByEmail[e] in s.accountsById
    ensures forall c :: c in s.passkeysByCredentialId ==>
      var p := s.passkeysByCredentialId[c];
      p in s.passkeysById.entries && s.passkeysById.entries[p].passkeyId == p
        && s.passkeysById.entries[p].credentialId == c
    ensures forall p :: p in s.passkeysById.entries ==> s.passkeysById.entries[p].accountId in s.accountsById
  {
  }

  lemma SessionBasics(s: Repo, v: Verifier)
    requires Inv(s) && v in s.sessions.entries
    ensures s.sessions.entries[v].input.tokenVerifier == v && s.sessions.entries[v].accountId in s.accountsById
    ensures s.accountsById[s.sessions.entries[v].accountId].userId == s.sessions.entries[v].accountId
  {
  }

  lemma CredentialBasics(s: Repo, credential: CredentialId)
    requires Inv(s) && credential in s.passkeysByCredentialId
    ensures
      var p := s.passkeysByCredentialId[credential];
      && p in s.passkeysById.entries && s.passkeysById.entries[p].passkeyId == p
      && s.passkeysById.entries[p].accountId in s.accountsById
  {
  }

  lemma ChallengeBasics(s: Repo, c: ChallengeId)
    requires Inv(s) && c in s.challenges.entries
    ensures s.challenges.entries[c].accountId in s.accountsById
    ensures s.accountsById[s.challenges.entries[c].accountId].userId == s.challenges.entries[c].accountId
  {
  }

  lemma InvEmpty()
    ensures Inv(EMPTY)
  {
  }

  lemma {:induction false} WithoutGrantDistinct(grants: seq<Grant>, g: Grant)
    requires Distinct(grants)
    ensures Distinct(WithoutGrant(grants, g))
  {
    if grants != [] {
      var rest := WithoutGrant(grants[1..], g);
      WithoutGrantDistinct(grants[1..], g);
      assert forall x :: x in rest ==> x in grants[1..];
      assert grants[0] !in rest;
    }
  }

  // ---- One component at a time ----

  lemma PutSessionOk(s: Repo, session: Session)
    requires Inv(s)
    requires session.accountId in s.accountsById && IdleRule(session)
    requires session.Live() ==> !IsDeactivated(s.accountsById, session.accountId)
    ensures Inv(PutSession(s, session))
  {
  }

  lemma RevokeOk(sessions: Sessions, accounts: Accounts, chosen: set<Verifier>, now: Time)
    requires SessionsOk(sessions, accounts)
    ensures SessionsOk(RevokeSessions(sessions, chosen, now), accounts)
  {
  }

  lemma InvalidateOk(challenges: Challenges, accounts: Accounts, chosen: set<ChallengeId>, now: Time)
    requires ChallengesOk(challenges, accounts)
    requires forall c :: c in chosen && c in challenges.entries ==> challenges.entries[c].usedAt.None?
    ensures ChallengesOk(InvalidateChallenges(challenges, chosen, now), accounts)
  {
  }

  lemma PutChallengeOk(challenges: Challenges, accounts: Accounts, challenge: Challenge)
    requires ChallengesOk(challenges, accounts)
    requires challenge.accountId in accounts && challenge.attempts <= challenge.input.maxAttempts
    requires challenge.usedAt.None? || challenge.invalidatedAt.None?
    requires challenge.Open() ==>
      && !IsDeactivated(accounts, challenge.accountId)
      && (forall d :: d in challenges.entries && challenges.entries[d].Open() && d != challenge.input.challengeId ==>
            challenges.entries[d].accountId != challenge.accountId)
    ensures ChallengesOk(challenges.Set(challenge.input.challengeId, challenge), accounts)
  {
  }

  /** Accounts may gain entries, and entries may change in ways sessions, challenges and passkeys do not see. */
  lemma AccountsGrowOk(s: Repo, accounts: Accounts)
    requires Inv(s)
    requires s.accountsById.Keys <= accounts.Keys
    requires forall u :: u in s.accountsById && IsDeactivated(accounts, u) ==> IsDeactivated(s.accountsById, u)
    ensures SessionsOk(s.sessions, accounts) && ChallengesOk(s.challenges, accounts)
    ensures PasskeysOk(s.passkeysById, s.passkeysByCredentialId, accounts)
  {
  }

  /** Closing an account's access lets it be deactivated. */
  lemma CloseAccessOk(s: Repo, u: UserId, now: Time, accounts: Accounts)
    requires Inv(s)
    requires s.accountsById.Keys <= accounts.Keys
    requires forall w :: w in s.accountsById && w != u && IsDeactivated(accounts, w) ==>
      IsDeactivated(s.accountsById, w)
    ensures SessionsOk(CloseAccess(s, u, now).sessions, accounts)
    ensures ChallengesOk(CloseAccess(s, u, now).challenges, accounts)
    ensures PasskeysOk(CloseAccess(s, u, now).passkeysById, s.passkeysByCredentialId, accounts)
  {
    CloseSessionsOk(s.sessions, u, now, s.accountsById, accounts);
    CloseChallengesOk(s.challenges, u, now, s.accountsById, accounts);
    ClosePasskeysOk(s.passkeysById, s.passkeysByCredentialId, u, now, s.accountsById, accounts);
  }

  lemma CloseSessionsOk(sessions: Sessions, u: UserId, now: Time, before: Accounts, after: Accounts)
    requires SessionsOk(sessions, before) && before.Keys <= after.Keys
    requires forall w :: w in before && w != u && IsDeactivated(after, w) ==> IsDeactivated(before, w)
    ensures SessionsOk(RevokeSessions(sessions, LiveSessions(sessions, u), now), after)
  {
  }

  lemma CloseChallengesOk(challenges: Challenges, u: UserId, now: Time, before: Accounts, after: Accounts)
    requires ChallengesOk(challenges, before) && before.Keys <= after.Keys
    requires forall w :: w in before && w != u && IsDeactivated(after, w) ==> IsDeactivated(before, w)
    ensures ChallengesOk(InvalidateChallenges(challenges, OpenChallenges(challenges, u), now), after)
  {
  }

  lemma ClosePasskeysOk(
      passkeys: Passkeys, byCredential: map<CredentialId, PasskeyId>, u: UserId, now: Time, before: Accounts,
      after: Accounts)
    requires PasskeysOk(passkeys, byCredential, before) && before.Keys <= after.Keys
    requires forall w :: w in before && w != u && IsDeactivated(after, w) ==> IsDeactivated(before, w)
    ensures PasskeysOk(RevokePasskeys(passkeys, LivePasskeys(passkeys, u), now), byCredential, after)
  {
  }

  // ---- One operation at a time ----

  lemma AuthenticateKeepsInv(s: Repo, v: Verifier, now: Time)
    requires Inv(s)
    ensures Inv(AuthenticateSession(s, v, now).0)
  {
    if v in s.sessions.entries && s.sessions.entries[v].Live() {
      if Acceptable(s, v, now) {
        PutSessionOk(s, s.sessions.entries[v].Touched(now));
      } else {
        RevokeOk(s.sessions, s.accountsById, {v}, now);
      }
    }
  }

  lemma IssueKeepsInv(s: Repo, email: Email, input: ChallengeInput, cooldown: int)
    requires Inv(s)
    ensures Inv(IssueEmailChallenge(s, email, input, cooldown).0)
  {
    var r := IssueEmailChallenge(s, email, input, cooldown);
    if r.1.Issued? {
      var u := s.accountsByEmail[email];
      var open := OpenChallenges(s.challenges, u);
      InvalidateOk(s.challenges, s.accountsById, open, input.issuedAt);
      PutChallengeOk(InvalidateChallenges(s.challenges, open, input.issuedAt), s.accountsById,
        Challenge(input, u, 0, None, None));
    }
  }

  lemma SpendKeepsInv(s: Repo, c: ChallengeId, now: Time, session: Session)
    requires Inv(s)
    requires c in s.challenges.entries && s.challenges.entries[c].Open()
    requires ActiveAccount(s, session.accountId) && IdleRule(session)
    ensures Inv(SpendChallenge(s, c, now, session))
  {
    var spent := s.challenges.entries[c].(usedAt := Some(now));
    PutChallengeOk(s.challenges, s.accountsById, spent);
    PutSessionOk(s.(challenges := s.challenges.Set(c, spent)), session);
  }

  lemma WrongCodeKeepsInv(s: Repo, c: ChallengeId, now: Time)
    requires Inv(s) && Answerable(s, c, now)
    ensures Inv(CountWrongCode(s, c))
  {
    hide AccountsOk, OwnerOk, SessionsOk, PasskeysOk, OrderedMap.Valid, OrderedMap.Set, IsDeactivated;
    var counted := s.challenges.entries[c].(attempts := s.challenges.entries[c].attempts + 1);
    assert counted.input.challengeId == c;
    PutChallengeOk(s.challenges, s.accountsById, counted);
  }

  lemma ConsumeKeepsInv(s: Repo, c: ChallengeId, candidate: CodeVerifier, now: Time, input: SessionInput)
    requires Inv(s)
    ensures Inv(ConsumeChallenge(s, c, candidate, now, input).0)
  {
    if Answerable(s, c, now) {
      var u := s.challenges.entries[c].accountId;
      if s.challenges.entries[c].input.codeVerifier != candidate {
        WrongCodeKeepsInv(s, c, now);
      } else if !ActiveAccount(s, u) {
        InvalidateOk(s.challenges, s.accountsById, {c}, now);
      } else if input.tokenVerifier !in s.sessions.entries {
        SpendKeepsInv(s, c, now, NewSession(input, u, None));
      }
    }
  }

  lemma RecordUseKeepsInv(s: Repo, p: Passkey, now: Time, input: LoginInput)
    requires Inv(s)
    requires p.passkeyId in s.passkeysById.entries && s.passkeysById.entries[p.passkeyId] == p
    ensures Inv(RecordUse(s, p, now, input))
  {
  }

  lemma LoginKeepsInv(s: Repo, now: Time, input: LoginInput)
    requires Inv(s)
    ensures Inv(CompletePasskeyLogin(s, now, input).0)
  {
    hide Inv;
    var login := CompletePasskeyLogin(s, now, input);
    if login.1.Ok? && login.1.value.Some? {
      CredentialBasics(s, input.credentialId);
      var p := UsablePasskey(s, input.credentialId).value;
      RecordUseKeepsInv(s, p, now, input);
      PutSessionOk(RecordUse(s, p, now, input), LoginSession(p.accountId, now, input.session));
    }
  }

  lemma RegisterKeepsInv(s: Repo, actor: Verifier, now: Time, input: PasskeyInput)
    requires Inv(s)
    ensures Inv(RegisterPasskey(s, actor, now, input).0)
  {
    hide AccountsOk, OwnerOk, SessionsOk, ChallengesOk;
    var r := RegisterPasskey(s, actor, now, input);
    assert r.1.Ok? ==> PasskeysOk(r.0.passkeysById, r.0.passkeysByCredentialId, s.accountsById);
  }

  lemma BootstrapKeepsInv(s: Repo, id: BootstrapId, u: UserId, email: Email, name: Text)
    requires Inv(s)
    ensures Inv(Bootstrap(s, id, u, email, name).0)
  {
    var r := Bootstrap(s, id, u, email, name);
    if r.1.Ok? && r.1.value.created {
      AccountsGrowOk(s, r.0.accountsById);
      assert id in r.0.bootstrapAccounts && r.0.bootstrapAccounts.Values == {u};
      assert u in r.0.accountsById;
    }
  }

  lemma PutAccountKeepsInv(s: Repo, u: UserId, a: Account)
    requires Inv(s) && u in s.accountsById
    requires a.userId == u && a.email == s.accountsById[u].email && Distinct(a.grants)
    requires a.isServerOwner == s.accountsById[u].isServerOwner
    requires a.isServerOwner ==> PlatformAdministrator in a.grants
    requires a.status.Deactivated? ==> s.accountsById[u].status.Deactivated?
    ensures Inv(PutAccount(s, u, a))
  {
    AccountsGrowOk(s, PutAccount(s, u, a).accountsById);
    assert u in PutAccount(s, u, a).accountsById;
  }

  lemma ProfileKeepsOwner(s: Repo, u: UserId, email: Email, name: Text)
    requires OwnerOk(s.accountsById, s.bootstrapAccounts)
    ensures
      var t := ChangeProfile(s, u, email, name).0;
      OwnerOk(t.accountsById, t.bootstrapAccounts)
  {
    if u in s.accountsById { assert u in ChangeProfile(s, u, email, name).0.accountsById; }
  }

  lemma ChangeProfileKeepsInv(s: Repo, u: UserId, email: Email, name: Text)
    requires Inv(s)
    ensures Inv(ChangeProfile(s, u, email, name).0)
  {
    hide Distinct, SessionsOk, ChallengesOk, PasskeysOk, OwnerOk;
    ProfileKeepsOwner(s, u, email, name);
    var r := ChangeProfile(s, u, email, name);
    if r.1.Ok? {
      AccountsGrowOk(s, r.0.accountsById);
      assert u in r.0.accountsById;
    }
  }

  lemma AddAccountKeepsInv(s: Repo, u: UserId, email: Email, name: Text)
    requires Inv(s) && s.accountsById != map[]
    ensures Inv(AddAccount(s, u, email, name).0)
  {
    var r := AddAccount(s, u, email, name);
    if r.1.Ok? {
      AccountsGrowOk(s, r.0.accountsById);
      assert u in r.0.accountsById;
    }
  }

  lemma DeactivateKeepsInv(s: Repo, u: UserId, now: Time)
    requires Inv(s) && u in s.accountsById
    ensures Inv(CloseAccess(PutAccount(s, u, s.accountsById[u].(status := Deactivated)), u, now))
  {
    var accounts := s.accountsById[u := s.accountsById[u].(status := Deactivated)];
    CloseAccessOk(s, u, now, accounts);
    assert u in accounts;
  }

  lemma ChangeStatusKeepsInv(s: Repo, u: UserId, status: Status, now: Time)
    requires Inv(s)
    ensures Inv(ChangeStatus(s, u, status, now).0)
  {
    if u in s.accountsById {
      if status.Deactivated? {
        DeactivateKeepsInv(s, u, now);
      } else {
        PutAccountKeepsInv(s, u, s.accountsById[u].(status := status));
      }
    }
  }

  lemma AddGrantKeepsInv(s: Repo, owner: bool, u: UserId, g: Grant)
    requires Inv(s)
    ensures Inv(AddGrant(s, owner, u, g).0)
  {
    if u in s.accountsById {
      var a := s.accountsById[u];
      var after := if g in a.grants then a else a.(grants := a.grants + [g]);
      assert Distinct(after.grants);
      PutAccountKeepsInv(s, u, after);
    }
  }

  lemma RemoveGrantKeepsInv(s: Repo, owner: bool, u: UserId, g: Grant)
    requires Inv(s)
    ensures Inv(RemoveGrant(s, owner, u, g).0)
  {
    if u in s.accountsById && !(g.PlatformAdministrator? && s.accountsById[u].isServerOwner) {
      var a := s.accountsById[u];
      WithoutGrantDistinct(a.grants, g);
      PutAccountKeepsInv(s, u, a.(grants := WithoutGrant(a.grants, g)));
    }
  }

  lemma RevokeOneKeepsInv(s: Repo, u: UserId, id: SessionId, now: Time)
    requires Inv(s)
    ensures Inv(RevokeOne(s, u, id, now).0)
  {
    var found := FirstLiveSession(s.sessions, s.sessions.order, u, id);
    if found.Some? { RevokeOk(s.sessions, s.accountsById, {found.value}, now); }
  }

  lemma ResetKeepsInv(s: Repo, u: UserId, now: Time)
    requires Inv(s)
    ensures Inv(ResetAccess(s, u, now).0)
  {
    CloseAccessOk(s, u, now, s.accountsById);
  }

  lemma RevokeAllKeepsInv(s: Repo, u: UserId, now: Time)
    requires Inv(s)
    ensures Inv(RevokeAll(s, u, now).0)
  {
    RevokeOk(s.sessions, s.accountsById, LiveSessions(s.sessions, u), now);
  }

  lemma ChangeDomainStatusKeepsInv(s: Repo, u: UserId, domain: Text)
    requires Inv(s)
    ensures Inv(ChangeDomainStatus(s, u, domain).0)
  {
    if u in s.accountsById { PutAccountKeepsInv(s, u, s.accountsById[u].(domainStatus := domain)); }
  }

  lemma AdministerKeepsInv(s: Repo, owner: bool, request: Administration, now: Time)
    requires Inv(s) && s.accountsById != map[]
    ensures Inv(Administer(s, owner, request, now).0)
  {
    hide Inv, ResetAccess, AddAccount, AddGrant, RemoveGrant, RevokeAll, RevokeOne, ChangeStatus, ChangeProfile;
    match request
    case SecurityReset(u) => ResetKeepsInv(s, u, now);
    case CreateAccount(u, email, name) => AddAccountKeepsInv(s, u, email, name);
    case GiveGrant(u, g) => AddGrantKeepsInv(s, owner, u, g);
    case TakeGrant(u, g) => RemoveGrantKeepsInv(s, owner, u, g);
    case RevokeAllSessions(u) => RevokeAllKeepsInv(s, u, now);
    case RevokeSession(u, id) => RevokeOneKeepsInv(s, u, id, now);
    case SetStatus(u, status) => ChangeStatusKeepsInv(s, u, status, now);
    case SetDomainStatus(u, domain) => ChangeDomainStatusKeepsInv(s, u, domain);
    case UpdateAccount(u, email, name) => ChangeProfileKeepsInv(s, u, email, name);
  }

  lemma AdminKeepsInv(s: Repo, actor: Verifier, now: Time, request: Administration)
    requires Inv(s)
    ensures Inv(AsAdministrator(s, actor, now, request).0)
  {
    if RequireAdministrator(s, actor, now).Some? {
      PutSessionOk(s, s.sessions.entries[actor].Touched(now));
      AdministerKeepsInv(RequireAdministrator(s, actor, now).value, OwnerActs(s, actor), request, now);
    }
  }

  lemma OidcKeepsInv(s: Repo, u: UserId, source: Verifier, input: SessionInput)
    requires Inv(s)
    ensures Inv(CreateOidcSession(s, u, source, input).0)
  {
    if CreateOidcSession(s, u, source, input).1 == Ok(true) {
      PutSessionOk(s, NewSession(input, u, Some(source)));
    }
  }

  lemma InvalidateKeepsInv(s: Repo, c: ChallengeId, now: Time)
    requires Inv(s)
    ensures Inv(InvalidateChallenge(s, c, now))
  {
    if c in s.challenges.entries
      && s.challenges.entries[c].usedAt.None? { InvalidateOk(s.challenges, s.accountsById, {c}, now); }
  }

  lemma RevokeByVerifierKeepsInv(s: Repo, v: Verifier, now: Time)
    requires Inv(s)
    ensures Inv(RevokeSessionByVerifier(s, v, now).0)
  {
    RevokeOk(s.sessions, s.accountsById, {v}, now);
  }

  /** Every operation keeps the invariant, with no assumption on its arguments. */
  lemma StepKeepsInv(s: Repo, op: Op)
    requires Inv(s)
    ensures Inv(Step(s, op))
  {
    hide Inv, AuthenticateSession, CreateOidcSession, RevokeSessionByVerifier, IssueEmailChallenge, InvalidateChallenge;
    hide ConsumeChallenge, RegisterPasskey, CompletePasskeyLogin, Bootstrap, AsAdministrator;
    match op
    case OpAuthenticate(v, now) => AuthenticateKeepsInv(s, v, now);
    case OpCreateOidc(u, source, session) => OidcKeepsInv(s, u, source, session);
    case OpRevokeByVerifier(v, now) => RevokeByVerifierKeepsInv(s, v, now);
    case OpIssue(email, challenge, cooldown) => IssueKeepsInv(s, email, challenge, cooldown);
    case OpInvalidate(c, now) => InvalidateKeepsInv(s, c, now);
    case OpConsume(c, candidate, now, session) => ConsumeKeepsInv(s, c, candidate, now, session);
    case OpRegister(v, now, passkey) => RegisterKeepsInv(s, v, now, passkey);
    case OpLogin(now, login) => LoginKeepsInv(s, now, login);
    case OpBootstrap(id, u, email, name) => BootstrapKeepsInv(s, id, u, email, name);
    case OpAdmin(v, now, request) => AdminKeepsInv(s, v, now, request);
  }

  lemma {:induction false} RunKeepsInv(s: Repo, ops: seq<Op>)
    requires Inv(s)
    ensures Inv(Run(s, ops))
    decreases ops
  {
    if ops != [] {
      StepKeepsInv(s, ops[0]);
      RunKeepsInv(Step(s, ops[0]), ops[1..]);
    }
  }

  /** Any state reached from an empty repository. */
  ghost predicate Reachable(s: Repo) {
    exists ops :: Run(EMPTY, ops) == s
  }

  lemma ReachableInv(s: Repo)
    requires Reachable(s)
    ensures Inv(s)
  {
    var ops :| Run(EMPTY, ops) == s;
    RunKeepsInv(EMPTY, ops);
  }
}
