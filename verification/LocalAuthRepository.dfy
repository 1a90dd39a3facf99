/**
 * The in-memory authentication repository. Its methods run one at a time, in the order they were
 * submitted; each is proved to do exactly what AuthState says of its operation.
 */
module LocalRepository {
  import opened Collections
  import opened AuthState
  import opened AuthInvariant
  import Spec = AuthState

  class LocalAuthRepository {
    var accountsByEmail: map<Email, UserId>
    var accountsById: Accounts
    var bootstrapAccounts: map<BootstrapId, UserId>
    var challenges: Challenges
    var latestChallengeAt: map<UserId, Time>
    var passkeysByCredentialId: map<CredentialId, PasskeyId>
    var passkeysById: Passkeys
    var sessions: Sessions

    ghost function State(): Repo
      reads this
    {
      Repo(accountsByEmail, accountsById, bootstrapAccounts, challenges, latestChallengeAt,
           passkeysByCredentialId, passkeysById, sessions)
    }

    ghost predicate Valid()
      reads this
    {
      Inv(State())
    }

    constructor ()
      ensures Valid() && State() == EMPTY
    {
      accountsByEmail, accountsById, bootstrapAccounts, latestChallengeAt := map[], map[], map[], map[];
      challenges, passkeysById, sessions := OrderedMap([], map[]), OrderedMap([], map[]), OrderedMap([], map[]);
      passkeysByCredentialId := map[];
    }

    // ---- Sessions ----

    method AuthenticateSession(v: Verifier, now: Time) returns (r: Option<Principal>)
      requires Valid()
      modifies this
      ensures Valid() && (State(), r) == Spec.AuthenticateSession(old(State()), v, now)
    {
      hide Inv, OrderedMap.Valid, RevokeSessions;
      if v in sessions.entries { SessionBasics(State(), v); }
      AuthenticateKeepsInv(State(), v, now);
      if v !in sessions.entries || sessions.entries[v].revokedAt.Some? {
        return None;
      }
      var session := sessions.entries[v];
      if || session.accountId !in accountsById || accountsById[session.accountId].status.Deactivated?
         || now >= session.input.absoluteExpiresAt || now >= session.idleExpiresAt
      {
        SetRevoked(v, now);
        return None;
      }
      session := session.(lastSeenAt := now);
      session := session.(idleExpiresAt := Min(session.input.absoluteExpiresAt, now + session.input.idleLifetime));
      sessions := sessions.Set(v, session);
      r := Some(SessionPrincipal(accountsById[session.accountId], session));
    }

    method ValidateSession(v: Verifier, now: Time) returns (r: Option<Principal>)
      requires Valid()
      ensures r == Spec.ValidateSession(State(), v, now)
    {
      if v !in sessions.entries || sessions.entries[v].revokedAt.Some? {
        return None;
      }
      var session := sessions.entries[v];
      if || session.accountId !in accountsById || accountsById[session.accountId].status.Deactivated?
         || now < session.input.issuedAt || now >= session.input.absoluteExpiresAt || now >= session.idleExpiresAt
      {
        return None;
      }
      r := Some(SessionPrincipal(accountsById[session.accountId], session));
    }

    method CreateOidcSession(u: UserId, source: Verifier, input: SessionInput) returns (r: Result<bool>)
      requires Valid()
      modifies this
      ensures Valid() && (State(), r) == Spec.CreateOidcSession(old(State()), u, source, input)
    {
      hide Inv;
      InvBasics(State());
      OidcKeepsInv(State(), u, source, input);
      if || u !in accountsById || accountsById[u].status.Deactivated?
         || exists v :: v in sessions.entries && sessions.entries[v].source == Some(source)
      {
        return Ok(false);
      }
      if || input.tokenVerifier in sessions.entries
         || exists v :: v in sessions.entries && sessions.entries[v].input.sessionId == input.sessionId
      {
        return Thrown(Conflict);
      }
      var idle := Min(input.absoluteExpiresAt, input.issuedAt + input.idleLifetime);
      sessions := sessions.Set(input.tokenVerifier, Session(input, u, input.issuedAt, idle, None, Some(source)));
      r := Ok(true);
    }

    method RevokeSessionByVerifier(v: Verifier, now: Time) returns (r: bool)
      requires Valid()
      modifies this
      ensures Valid() && (State(), r) == Spec.RevokeSessionByVerifier(old(State()), v, now)
    {
      RevokeOk(sessions, accountsById, {v}, now);
      if v !in sessions.entries || sessions.entries[v].revokedAt.Some? {
        return false;
      }
      SetRevoked(v, now);
      r := true;
    }

    /** `session.revokedAt = now` on one stored session. */
    method SetRevoked(v: Verifier, now: Time)
      requires v in sessions.entries
      modifies this`sessions
      ensures sessions == RevokeSessions(old(sessions), {v}, now)
    {
      sessions := sessions.Set(v, sessions.entries[v].(revokedAt := Some(now)));
    }

    // ---- The three loops that close what belongs to an account ----

    method RevokeLiveSessions(u: UserId, now: Time) returns (count: nat)
      requires sessions.Valid()
      modifies this`sessions
      ensures sessions == RevokeSessions(old(sessions), LiveSessions(old(sessions), u), now)
      ensures count == |LiveSessions(old(sessions), u)|
    {
      count := 0;
      ghost var before, live := sessions, LiveSessions(sessions, u);
      hide RevokeSessions, Seen, OrderedMap.Valid;
      RevokeEnds(before, live, now);
      for i := 0 to |sessions.order|
        invariant sessions.order == before.order && sessions == RevokeSessions(before, Seen(live, before.order, i), now)
        invariant count == |Seen(live, before.order, i)|
      {
        RevokeVisit(before, live, i, now);
        var v := sessions.order[i];
        var session := sessions.entries[v];
        if session.accountId == u && session.revokedAt.None? {
          sessions := sessions.Set(v, session.(revokedAt := Some(now)));
          count := count + 1;
        }
      }
    }

    method InvalidateOpenChallenges(u: UserId, now: Time) returns (count: nat)
      requires challenges.Valid()
      modifies this`challenges
      ensures challenges == InvalidateChallenges(old(challenges), OpenChallenges(old(challenges), u), now)
      ensures count == |OpenChallenges(old(challenges), u)|
    {
      count := 0;
      ghost var before, open := challenges, OpenChallenges(challenges, u);
      hide InvalidateChallenges, Seen, OrderedMap.Valid, OpenChallenges;
      InvalidateEnds(before, open, now) by { assert open <= before.entries.Keys by { OpenIsKnown(before, u); } }
      for i := 0 to |challenges.order|
        invariant challenges.order == before.order
          && challenges == InvalidateChallenges(before, Seen(open, before.order, i), now)
        invariant count == |Seen(open, before.order, i)|
      {
        InvalidateVisit(before, open, i, now);
        var c := challenges.order[i];
        var challenge := challenges.entries[c];
        OpenIsKnown(before, u);
        if challenge.accountId == u && challenge.invalidatedAt.None? && challenge.usedAt.None? {
          challenges := challenges.Set(c, challenge.(invalidatedAt := Some(now)));
          count := count + 1;
        }
      }
    }

    method RevokeLivePasskeys(u: UserId, now: Time) returns (count: nat)
      requires passkeysById.Valid()
      modifies this`passkeysById
      ensures passkeysById == RevokePasskeys(old(passkeysById), LivePasskeys(old(passkeysById), u), now)
      ensures count == |LivePasskeys(old(passkeysById), u)|
    {
      count := 0;
      ghost var before, live := passkeysById, LivePasskeys(passkeysById, u);
      hide RevokePasskeys, Seen, OrderedMap.Valid;
      RevokePasskeyEnds(before, live, now);
      for i := 0 to |passkeysById.order|
        invariant passkeysById.order == before.order
          && passkeysById == RevokePasskeys(before, Seen(live, before.order, i), now)
        invariant count == |Seen(live, before.order, i)|
      {
        RevokePasskeyVisit(before, live, i, now);
        var p := passkeysById.order[i];
        var passkey := passkeysById.entries[p];
        if passkey.accountId == u && passkey.revokedAt.None? {
          passkeysById := passkeysById.Set(p, passkey.(revokedAt := Some(now)));
          count := count + 1;
        }
      }
    }

    // ---- E-mail challenges ----

    method IssueEmailChallenge(email: Email, input: ChallengeInput, cooldown: int) returns (r: Issue)
      requires Valid()
      modifies this
      ensures Valid() && (State(), r) == Spec.IssueEmailChallenge(old(State()), email, input, cooldown)
    {
      hide Inv;
      InvBasics(State());
      IssueKeepsInv(State(), email, input, cooldown);
      if email !in accountsByEmail || accountsById[accountsByEmail[email]].status.Deactivated? {
        return Neutral;
      }
      var account := accountsById[accountsByEmail[email]];
      if account.userId in latestChallengeAt && input.issuedAt - latestChallengeAt[account.userId] < cooldown {
        return Neutral;
      }
      var _ := InvalidateOpenChallenges(account.userId, input.issuedAt);
      challenges := challenges.Set(input.challengeId, Challenge(input, account.userId, 0, None, None));
      latestChallengeAt := latestChallengeAt[account.userId := input.issuedAt];
      r := Issued(input.challengeId, account.email);
    }

    method InvalidateChallenge(c: ChallengeId, now: Time)
      requires Valid()
      modifies this
      ensures Valid() && State() == Spec.InvalidateChallenge(old(State()), c, now)
    {
      hide Inv;
      InvBasics(State());
      InvalidateKeepsInv(State(), c, now);
      if c in challenges.entries && challenges.entries[c].usedAt.None? {
        SetInvalidated(c, now);
      }
    }

    /** `challenge.invalidatedAt = now` on one stored challenge. */
    method SetInvalidated(c: ChallengeId, now: Time)
      requires c in challenges.entries
      modifies this`challenges
      ensures challenges == InvalidateChallenges(old(challenges), {c}, now)
    {
      challenges := challenges.Set(c, challenges.entries[c].(invalidatedAt := Some(now)));
    }

    method ConsumeChallengeAndCreateSession(c: ChallengeId, candidate: CodeVerifier, now: Time, input: SessionInput)
      returns (r: Result<Verification>)
      requires Valid()
      modifies this
      ensures Valid() && (State(), r) == Spec.ConsumeChallenge(old(State()), c, candidate, now, input)
    {
      hide Inv;
      if c in challenges.entries { ChallengeBasics(State(), c); }
      ConsumeKeepsInv(State(), c, candidate, now, input);
      if c !in challenges.entries {
        return Ok(Invalid);
      }
      var challenge := challenges.entries[c];
      if || challenge.invalidatedAt.Some? || challenge.usedAt.Some?
         || now >= challenge.input.expiresAt || challenge.attempts >= challenge.input.maxAttempts
      {
        return Ok(Invalid);
      }
      if challenge.input.codeVerifier != candidate {
        challenges := challenges.Set(c, challenge.(attempts := challenge.attempts + 1));
        return Ok(Invalid);
      }
      if challenge.accountId !in accountsById || accountsById[challenge.accountId].status.Deactivated? {
        SetInvalidated(c, now);
        return Ok(Invalid);
      }
      if input.tokenVerifier in sessions.entries {
        return Thrown(Conflict);
      }
      challenges := challenges.Set(c, challenge.(usedAt := Some(now)));
      var idle := Min(input.absoluteExpiresAt, input.issuedAt + input.idleLifetime);
      var session := Session(input, challenge.accountId, input.issuedAt, idle, None, None);
      sessions := sessions.Set(input.tokenVerifier, session);
      r := Ok(Authenticated(SessionPrincipal(accountsById[challenge.accountId], session)));
    }

    // ---- Passkeys ----

    method RegisterPasskey(actor: Verifier, now: Time, input: PasskeyInput) returns (r: Result<UserId>)
      requires Valid()
      modifies this
      ensures Valid() && (State(), r) == Spec.RegisterPasskey(old(State()), actor, now, input)
    {
      hide Inv;
      InvBasics(State());
      RegisterKeepsInv(State(), actor, now, input);
      if actor !in sessions.entries || sessions.entries[actor].revokedAt.Some? {
        return Thrown(Authorization);
      }
      var session := sessions.entries[actor];
      if || now < session.input.issuedAt || now >= session.idleExpiresAt || now >= session.input.absoluteExpiresAt
         || session.accountId !in accountsById || accountsById[session.accountId].status.Deactivated?
         || !input.userVerified
      {
        return Thrown(Authorization);
      }
      if input.credentialId in passkeysByCredentialId || input.passkeyId in passkeysById.entries {
        return Thrown(Conflict);
      }
      var passkey := Passkey(input.passkeyId, session.accountId, input.credentialId, input.attestation, now,
                             input.backup, input.backup, None, input.signCount, None);
      passkeysByCredentialId := passkeysByCredentialId[input.credentialId := input.passkeyId];
      passkeysById := passkeysById.Set(input.passkeyId, passkey);
      r := Ok(session.accountId);
    }

    method ReadPasskeyByCredentialId(credential: CredentialId, now: Time) returns (r: Option<Credential>)
      requires Valid()
      ensures r == Spec.ReadPasskey(State(), credential, now)
    {
      if credential !in passkeysByCredentialId {
        return None;
      }
      var passkey := passkeysById.entries[passkeysByCredentialId[credential]];
      if || passkey.revokedAt.Some? || now < passkey.createdAt
         || passkey.accountId !in accountsById || accountsById[passkey.accountId].status.Deactivated?
      {
        return None;
      }
      r := Some(Credential(passkey.passkeyId, passkey.accountId, passkey.credentialId, passkey.signCount));
    }

    method CompletePasskeyLogin(now: Time, input: LoginInput) returns (r: Result<Option<Login>>)
      requires Valid()
      modifies this
      ensures Valid() && (State(), r) == Spec.CompletePasskeyLogin(old(State()), now, input)
    {
      hide Inv;
      if input.credentialId in passkeysByCredentialId { CredentialBasics(State(), input.credentialId); }
      LoginKeepsInv(State(), now, input);
      if input.credentialId !in passkeysByCredentialId {
        return Ok(None);
      }
      var passkey := passkeysById.entries[passkeysByCredentialId[input.credentialId]];
      if || passkey.revokedAt.Some?
         || passkey.accountId !in accountsById || accountsById[passkey.accountId].status.Deactivated?
         || !input.userVerified
      {
        return Ok(None);
      }
      if passkey.signCount != input.expectedSignCount {
        return Thrown(Conflict);
      }
      if || input.session.tokenVerifier in sessions.entries
         || exists v :: v in sessions.entries && sessions.entries[v].input.sessionId == input.session.sessionId
      {
        return Thrown(Conflict);
      }
      var status :=
        if passkey.signCount == 0 && input.observedSignCount == 0 then NotSupported
        else if input.observedSignCount > passkey.signCount then Advanced
        else if input.observedSignCount == passkey.signCount then NotAdvanced
        else Regressed;
      passkey := passkey.(signCount := Max(passkey.signCount, input.observedSignCount));
      passkey := passkey.(lastBackup := input.backup, lastUsedAt := Some(now));
      passkeysById := passkeysById.Set(passkey.passkeyId, passkey);
      var idle := Min(input.session.absoluteExpiresAt, now + input.session.idleLifetime);
      var session := Session(input.session, passkey.accountId, now, idle, None, None);
      sessions := sessions.Set(input.session.tokenVerifier, session);
      r := Ok(Some(Login(passkey.accountId, input.session.sessionId, status)));
    }

    // ---- Accounts ----

    method BootstrapAdministrator(id: BootstrapId, u: UserId, email: Email, name: Text)
      returns (r: Result<Bootstrapped>)
      requires Valid()
      modifies this
      ensures Valid() && (State(), r) == Spec.Bootstrap(old(State()), id, u, email, name)
    {
      hide Inv;
      InvBasics(State());
      BootstrapKeepsInv(State(), id, u, email, name);
      if id in bootstrapAccounts {
        var known := bootstrapAccounts[id];
        if known !in accountsById || accountsById[known].userId != u || accountsById[known].email != email {
          return Thrown(Conflict);
        }
        return Ok(Bootstrapped(CloneAccount(accountsById[known]), false));
      }
      if u in accountsById || email in accountsByEmail {
        return Thrown(Conflict);
      }
      if |accountsById| > 0 && |bootstrapAccounts| > 0 {
        return Thrown(Conflict);
      }
      var account := Account(u, email, name, INCUBATOR_PARTICIPANT, [PlatformAdministrator], true, Active);
      accountsById := accountsById[u := account];
      accountsByEmail := accountsByEmail[email := u];
      bootstrapAccounts := bootstrapAccounts[id := u];
      r := Ok(Bootstrapped(CloneAccount(account), true));
    }

    method FindAccountById(u: UserId) returns (r: Option<AccountRecord>)
      ensures r == if u in accountsById then Some(CloneAccount(accountsById[u])) else None
    {
      if u !in accountsById {
        return None;
      }
      r := Some(CloneAccount(accountsById[u]));
    }

    /** Checks the acting session and renews its idle clock; None is the authorization error. */
    method RequireAdministrator(actor: Verifier, now: Time) returns (account: Option<Account>)
      requires Valid()
      modifies this`sessions
      ensures Spec.RequireAdministrator(old(State()), actor, now) == if account.Some? then Some(State()) else None
      ensures account.None? ==> State() == old(State())
      ensures account.Some? ==> Valid() && accountsById != map[]
      ensures account.Some? ==> account.value.isServerOwner == OwnerActs(old(State()), actor)
    {
      hide Inv;
      InvBasics(State());
      if actor !in sessions.entries || sessions.entries[actor].revokedAt.Some? {
        return None;
      }
      var session := sessions.entries[actor];
      if now < session.input.issuedAt || now >= session.idleExpiresAt || now >= session.input.absoluteExpiresAt {
        return None;
      }
      if session.accountId !in accountsById {
        return None;
      }
      var found := accountsById[session.accountId];
      if found.status.Deactivated? || PlatformAdministrator !in found.grants {
        return None;
      }
      PutSessionOk(State(), session.Touched(now));
      session := session.(lastSeenAt := now);
      session := session.(idleExpiresAt := Min(session.input.absoluteExpiresAt, now + session.input.idleLifetime));
      sessions := sessions.Set(actor, session);
      account := Some(found);
    }

    // ---- Administration ----

    method AdminSecurityResetAuthAccess(actor: Verifier, now: Time, u: UserId) returns (r: Result<AdminReply>)
      requires Valid()
      modifies this
      ensures Valid() && (State(), r) == Spec.AsAdministrator(old(State()), actor, now, SecurityReset(u))
    {
      hide Inv, RevokeSessions, InvalidateChallenges, RevokePasskeys, LiveSessions, OpenChallenges, LivePasskeys,
        Spec.RequireAdministrator;
      InvBasics(State());
      AdminKeepsInv(State(), actor, now, SecurityReset(u));
      var admin := RequireAdministrator(actor, now);
      if admin.None? { return Thrown(Authorization); }
      InvBasics(State());
      if u !in accountsById { return Thrown(NotFound); }
      var closedChallenges := InvalidateOpenChallenges(u, now);
      var closedSessions := RevokeLiveSessions(u, now);
      var closedPasskeys := RevokeLivePasskeys(u, now);
      r := Ok(ResetReply(ResetCounts(closedChallenges, closedSessions, closedPasskeys)));
    }

    method CreateAccountAsAdministrator(actor: Verifier, now: Time, u: UserId, email: Email, name: Text)
      returns (r: Result<AdminReply>)
      requires Valid()
      modifies this
      ensures Valid() && (State(), r) == Spec.AsAdministrator(old(State()), actor, now, CreateAccount(u, email, name))
    {
      hide Inv, Spec.RequireAdministrator;
      InvBasics(State());
      AdminKeepsInv(State(), actor, now, CreateAccount(u, email, name));
      var admin := RequireAdministrator(actor, now);
      if admin.None? { return Thrown(Authorization); }
      InvBasics(State());
      if u in accountsById || email in accountsByEmail { return Thrown(Conflict); }
      var account := Account(u, email, name, INCUBATOR_PARTICIPANT, [], false, Active);
      accountsById := accountsById[u := account];
      accountsByEmail := accountsByEmail[email := u];
      r := Ok(AccountReply(CloneAccount(account)));
    }

    method GrantFunctionalGrantAsAdministrator(actor: Verifier, now: Time, u: UserId, g: Grant)
      returns (r: Result<AdminReply>)
      requires Valid()
      modifies this
      ensures Valid() && (State(), r) == Spec.AsAdministrator(old(State()), actor, now, GiveGrant(u, g))
    {
      hide Inv, Spec.RequireAdministrator;
      InvBasics(State());
      AdminKeepsInv(State(), actor, now, GiveGrant(u, g));
      var admin := RequireAdministrator(actor, now);
      if admin.None? { return Thrown(Authorization); }
      InvBasics(State());
      if g == PlatformAdministrator && !admin.value.isServerOwner { return Thrown(Authorization); }
      if u !in accountsById { return Thrown(NotFound); }
      var account := accountsById[u];
      if g !in account.grants {
        account := account.(grants := account.grants + [g]);
      }
      accountsById := accountsById[u := account];
      r := Ok(AccountReply(CloneAccount(account)));
    }

    method RevokeFunctionalGrantAsAdministrator(actor: Verifier, now: Time, u: UserId, g: Grant)
      returns (r: Result<AdminReply>)
      requires Valid()
      modifies this
      ensures Valid() && (State(), r) == Spec.AsAdministrator(old(State()), actor, now, TakeGrant(u, g))
    {
      hide Inv, Spec.RequireAdministrator;
      InvBasics(State());
      AdminKeepsInv(State(), actor, now, TakeGrant(u, g));
      var admin := RequireAdministrator(actor, now);
      if admin.None? { return Thrown(Authorization); }
      InvBasics(State());
      if g == PlatformAdministrator && !admin.value.isServerOwner { return Thrown(Authorization); }
      if u !in accountsById { return Thrown(NotFound); }
      var account := accountsById[u];
      if g == PlatformAdministrator && account.isServerOwner { return Thrown(Conflict); }
      account := account.(grants := WithoutGrant(account.grants, g));
      accountsById := accountsById[u := account];
      r := Ok(AccountReply(CloneAccount(account)));
    }

    method RevokeAllSessionsAsAdministrator(actor: Verifier, now: Time, u: UserId) returns (r: Result<AdminReply>)
      requires Valid()
      modifies this
      ensures Valid() && (State(), r) == Spec.AsAdministrator(old(State()), actor, now, RevokeAllSessions(u))
    {
      hide Inv, Spec.RequireAdministrator;
      InvBasics(State());
      AdminKeepsInv(State(), actor, now, RevokeAllSessions(u));
      var admin := RequireAdministrator(actor, now);
      if admin.None? { return Thrown(Authorization); }
      InvBasics(State());
      if u !in accountsById { return Thrown(NotFound); }
      var count := RevokeLiveSessions(u, now);
      r := Ok(CountReply(count));
    }

    method RevokeSessionAsAdministrator(actor: Verifier, now: Time, u: UserId, id: SessionId)
      returns (r: Result<AdminReply>)
      requires Valid()
      modifies this
      ensures Valid() && (State(), r) == Spec.AsAdministrator(old(State()), actor, now, RevokeSession(u, id))
    {
      hide Inv, Spec.RequireAdministrator, RevokeSessions;
      InvBasics(State());
      AdminKeepsInv(State(), actor, now, RevokeSession(u, id));
      var admin := RequireAdministrator(actor, now);
      if admin.None? { return Thrown(Authorization); }
      InvBasics(State());
      if u !in accountsById { return Thrown(NotFound); }
      var i := 0;
      while i < |sessions.order|
        invariant i <= |sessions.order|
        invariant FirstLiveSession(sessions, sessions.order, u, id)
          == FirstLiveSession(sessions, sessions.order[i..], u, id)
      {
        var v := sessions.order[i];
        var session := sessions.entries[v];
        if session.accountId == u && session.input.sessionId == id && session.revokedAt.None? {
          SetRevoked(v, now);
          return Ok(FlagReply(true));
        }
        i := i + 1;
      }
      r := Ok(FlagReply(false));
    }

    method SetAccountStatusAsAdministrator(actor: Verifier, now: Time, u: UserId, status: Status)
      returns (r: Result<AdminReply>)
      requires Valid()
      modifies this
      ensures Valid() && (State(), r) == Spec.AsAdministrator(old(State()), actor, now, SetStatus(u, status))
    {
      hide Inv, RevokeSessions, InvalidateChallenges, RevokePasskeys, LiveSessions, OpenChallenges, LivePasskeys,
        Spec.RequireAdministrator;
      InvBasics(State());
      AdminKeepsInv(State(), actor, now, SetStatus(u, status));
      var admin := RequireAdministrator(actor, now);
      if admin.None? { return Thrown(Authorization); }
      InvBasics(State());
      if u !in accountsById { return Thrown(NotFound); }
      var account := accountsById[u].(status := status);
      accountsById := accountsById[u := account];
      if status.Deactivated? {
        var _ := RevokeLiveSessions(u, now);
        var _ := InvalidateOpenChallenges(u, now);
        var _ := RevokeLivePasskeys(u, now);
      }
      r := Ok(AccountReply(CloneAccount(account)));
    }

    method SetDomainStatusAsAdministrator(actor: Verifier, now: Time, u: UserId, domainStatus: Text)
      returns (r: Result<AdminReply>)
      requires Valid()
      modifies this
      ensures Valid() && (State(), r)
        == Spec.AsAdministrator(old(State()), actor, now, SetDomainStatus(u, domainStatus))
    {
      hide Inv, Spec.RequireAdministrator;
      InvBasics(State());
      AdminKeepsInv(State(), actor, now, SetDomainStatus(u, domainStatus));
      var admin := RequireAdministrator(actor, now);
      if admin.None? { return Thrown(Authorization); }
      InvBasics(State());
      if u !in accountsById { return Thrown(NotFound); }
      var account := accountsById[u].(domainStatus := domainStatus);
      accountsById := accountsById[u := account];
      r := Ok(AccountReply(CloneAccount(account)));
    }

    method UpdateAccountAsAdministrator(actor: Verifier, now: Time, u: UserId, email: Email, name: Text)
      returns (r: Result<AdminReply>)
      requires Valid()
      modifies this
      ensures Valid() && (State(), r) == Spec.AsAdministrator(old(State()), actor, now, UpdateAccount(u, email, name))
    {
      hide Inv, Spec.RequireAdministrator;
      InvBasics(State());
      AdminKeepsInv(State(), actor, now, UpdateAccount(u, email, name));
      var admin := RequireAdministrator(actor, now);
      if admin.None? { return Thrown(Authorization); }
      InvBasics(State());
      if u !in accountsById { return Thrown(NotFound); }
      var account := accountsById[u];
      if email in accountsByEmail && accountsByEmail[email] != account.userId { return Thrown(Conflict); }
      accountsByEmail := accountsByEmail - {account.email};
      account := account.(email := email);
      account := account.(displayName := name);
      accountsById := accountsById[u := account];
      accountsByEmail := accountsByEmail[email := u];
      r := Ok(AccountReply(CloneAccount(account)));
    }
  }
}
