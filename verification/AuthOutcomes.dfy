/**
 * What each operation of the repository answers, exactly when, and what it changes, told on the
 * records themselves: which entry has which field afterwards, and that nothing else has changed.
 */
module AuthOutcomes {
  import opened Collections
  import opened AuthState
  import opened AuthInvariant

  // ---- What callers can see of a session, an account and a frame ----

  predicate IsActive(s: Repo, u: UserId) {
    u in s.accountsById && s.accountsById[u].status == Active
  }

  /** The session is there, was not revoked, has not run out, and its account is active. */
  predicate MayAct(s: Repo, v: Verifier, now: Time) {
    && v in s.sessions.entries
    && var session := s.sessions.entries[v];
       && session.revokedAt == None
       && now < session.input.absoluteExpiresAt && now < session.idleExpiresAt
       && IsActive(s, session.accountId)
  }

  predicate MayAdminister(s: Repo, v: Verifier, now: Time) {
    && MayAct(s, v, now)
    && s.sessions.entries[v].input.issuedAt <= now
    && PlatformAdministrator in s.accountsById[s.sessions.entries[v].accountId].grants
  }

  predicate ActsAsOwner(s: Repo, v: Verifier) {
    && v in s.sessions.entries && s.sessions.entries[v].accountId in s.accountsById
    && s.accountsById[s.sessions.entries[v].accountId].isServerOwner
  }

  function Earlier(a: Time, b: Time): Time {
    if a < b then a else b
  }

  /** The principal tells the session and the account as they are. */
  predicate Describes(p: Principal, s: Repo, v: Verifier)
    requires v in s.sessions.entries && s.sessions.entries[v].accountId in s.accountsById
  {
    var session := s.sessions.entries[v];
    var account := s.accountsById[session.accountId];
    && p.userId == session.accountId && p.sessionId == session.input.sessionId
    && p.domainStatus == account.domainStatus && p.grants == account.grants && p.isServerOwner == account.isServerOwner
    && (p.canManageAccounts <==> PlatformAdministrator in account.grants)
    && (p.canReadDiagnostics <==> TechnicalAdministrator in account.grants)
  }

  /** Nothing but the one session has changed; a new one comes last. */
  ghost predicate OnlySession(s: Repo, t: Repo, v: Verifier) {
    && t == s.(sessions := t.sessions)
    && t.sessions.order == (if v in s.sessions.entries then s.sessions.order else s.sessions.order + [v])
    && t.sessions.entries.Keys == s.sessions.entries.Keys + {v}
    && forall w :: w in s.sessions.entries && w != v ==> t.sessions.entries[w] == s.sessions.entries[w]
  }

  /** The same, of one challenge. */
  ghost predicate OnlyChallenge(s: Repo, t: Repo, c: ChallengeId) {
    && t == s.(challenges := t.challenges)
    && c in s.challenges.entries && t.challenges.order == s.challenges.order
    && t.challenges.entries.Keys == s.challenges.entries.Keys
    && forall d :: d in s.challenges.entries && d != c ==> t.challenges.entries[d] == s.challenges.entries[d]
  }

  /** A stored session of an account that nobody has touched yet. */
  predicate IsNewSession(session: Session, input: SessionInput, u: UserId, seen: Time, source: Option<Verifier>) {
    && session.input == input && session.accountId == u && session.source == source
    && session.lastSeenAt == seen && session.revokedAt == None
    && session.idleExpiresAt == Earlier(input.absoluteExpiresAt, seen + input.idleLifetime)
  }

  // ---- Sessions ----

  /**
   * A session that may act is told and touched; one that is there and may not act any more is
   * revoked at once; nothing else changes.
   */
  lemma AuthenticateOutcome(s: Repo, v: Verifier, now: Time)
    requires Inv(s)
    ensures
      var (t, r) := AuthenticateSession(s, v, now);
      && (r.Some? <==> MayAct(s, v, now))
      && (r.Some? ==>
            && OnlySession(s, t, v) && Describes(r.value, s, v)
            && var (before, after) := (s.sessions.entries[v], t.sessions.entries[v]);
               && after.lastSeenAt == now
               && after.idleExpiresAt == Earlier(before.input.absoluteExpiresAt, now + before.input.idleLifetime)
               && after == before.(lastSeenAt := after.lastSeenAt, idleExpiresAt := after.idleExpiresAt))
      && (r.None? && v in s.sessions.entries && s.sessions.entries[v].revokedAt == None ==>
            && RevokedIn(s, t, v, now))
      && (r.None? && (v in s.sessions.entries ==> s.sessions.entries[v].revokedAt != None) ==> t == s)
  {
    hide Inv, RevokeSessions, OrderedMap.Valid, RevokedIn;
    if v in s.sessions.entries {
      SessionBasics(s, v);
      OneRevokedIs(s, v, now);
    }
  }

  /** Validating tells the same of every session that may act and had been issued by then. */
  lemma ValidateOutcome(s: Repo, v: Verifier, now: Time)
    requires Inv(s)
    ensures
      var r := ValidateSession(s, v, now);
      && (r.Some? <==> MayAct(s, v, now) && s.sessions.entries[v].input.issuedAt <= now)
      && (r.Some? ==> Describes(r.value, s, v))
  {
    if v in s.sessions.entries { SessionBasics(s, v); }
    hide Inv;
  }

  /** The bridge opens a session exactly for an active account, an unused source token and unused names. */
  lemma OidcOutcome(s: Repo, u: UserId, source: Verifier, input: SessionInput)
    ensures
      var (t, r) := CreateOidcSession(s, u, source, input);
      var used := exists v :: v in s.sessions.entries && s.sessions.entries[v].source == Some(source);
      var named := input.tokenVerifier in s.sessions.entries
        || exists v :: v in s.sessions.entries && s.sessions.entries[v].input.sessionId == input.sessionId;
      && r == (if !IsActive(s, u) || used then Ok(false) else if named then Thrown(Conflict) else Ok(true))
      && (r != Ok(true) ==> t == s)
      && (r == Ok(true) ==>
            && OnlySession(s, t, input.tokenVerifier)
            && IsNewSession(t.sessions.entries[input.tokenVerifier], input, u, input.issuedAt, Some(source)))
  {
  }

  /** A live session is revoked, and nothing else changes; the answer says whether there was one. */
  lemma RevokeByVerifierOutcome(s: Repo, v: Verifier, now: Time)
    ensures
      var (t, r) := RevokeSessionByVerifier(s, v, now);
      && (r <==> v in s.sessions.entries && s.sessions.entries[v].revokedAt == None)
      && (!r ==> t == s)
      && (r ==>
            && OnlySession(s, t, v)
            && t.sessions.entries[v] == s.sessions.entries[v].(revokedAt := Some(now)))
  {
  }

  // ---- E-mail challenges ----

  /** The account an address leads to may be sent a challenge issued at this time. */
  predicate MayBeSent(s: Repo, email: Email, issuedAt: Time, cooldown: int) {
    && email in s.accountsByEmail && IsActive(s, s.accountsByEmail[email])
    && (s.accountsByEmail[email] in s.latestChallengeAt ==>
          s.latestChallengeAt[s.accountsByEmail[email]] + cooldown <= issuedAt)
  }

  /** Every challenge of the account that was neither used nor invalidated is invalidated, the others stay. */
  ghost predicate OthersClosed(s: Repo, t: Repo, u: UserId, now: Time, except: ChallengeId) {
    forall c :: c in s.challenges.entries && c != except ==>
      && c in t.challenges.entries
      && var was := s.challenges.entries[c];
         t.challenges.entries[c] ==
           if was.accountId == u && was.usedAt == None && was.invalidatedAt == None
           then was.(invalidatedAt := Some(now)) else was
  }

  /** A challenge is issued exactly when the account may be sent one, and it is then the only open one. */
  lemma IssueOutcome(s: Repo, email: Email, input: ChallengeInput, cooldown: int)
    requires Inv(s)
    ensures
      var (t, r) := IssueEmailChallenge(s, email, input, cooldown);
      && r == (if MayBeSent(s, email, input.issuedAt, cooldown) then Issued(input.challengeId, email) else Neutral)
      && (r == Neutral ==> t == s)
      && (r != Neutral ==>
            var u := s.accountsByEmail[email];
            && t == s.(challenges := t.challenges, latestChallengeAt := s.latestChallengeAt[u := input.issuedAt])
            && t.challenges.entries.Keys == s.challenges.entries.Keys + {input.challengeId}
            && t.challenges.entries[input.challengeId] == Challenge(input, u, 0, None, None)
            && OthersClosed(s, t, u, input.issuedAt, input.challengeId))
  {
    if email in s.accountsByEmail { assert s.accountsById[s.accountsByEmail[email]].email == email; }
    hide Inv;
  }

  /** Only a challenge that was not used is invalidated, again if need be. */
  lemma InvalidateOutcome(s: Repo, c: ChallengeId, now: Time)
    ensures
      var t := InvalidateChallenge(s, c, now);
      if c in s.challenges.entries && s.challenges.entries[c].usedAt == None
      then OnlyChallenge(s, t, c) && t.challenges.entries[c] == s.challenges.entries[c].(invalidatedAt := Some(now))
      else t == s
  {
  }

  /** A code is compared at all only with an open challenge, before its expiry and within its attempts. */
  predicate Comparable(s: Repo, c: ChallengeId, now: Time) {
    && c in s.challenges.entries
    && var challenge := s.challenges.entries[c];
       && challenge.usedAt == None && challenge.invalidatedAt == None
       && now < challenge.input.expiresAt && challenge.attempts < challenge.input.maxAttempts
  }

  /**
   * The right code for an active account spends its challenge and opens the session that was asked
   * for, unless its token is taken; a wrong code is counted; the right code of an inactive account
   * closes the challenge; anything else changes nothing.
   */
  lemma ConsumeOutcome(s: Repo, c: ChallengeId, candidate: CodeVerifier, now: Time, input: SessionInput)
    requires Inv(s)
    ensures
      var (t, r) := ConsumeChallenge(s, c, candidate, now, input);
      if !Comparable(s, c, now) then t == s && r == Ok(Invalid)
      else
        var was := s.challenges.entries[c];
        if was.input.codeVerifier != candidate then
          r == Ok(Invalid) && OnlyChallenge(s, t, c)
            && t.challenges.entries[c] == was.(attempts := was.attempts + 1)
        else if !IsActive(s, was.accountId) then
          r == Ok(Invalid) && OnlyChallenge(s, t, c)
            && t.challenges.entries[c] == was.(invalidatedAt := Some(now))
        else if input.tokenVerifier in s.sessions.entries then t == s && r == Thrown(Conflict)
        else
          && SpentFor(s, t, c, now, input)
          && r.Ok? && r.value.Authenticated? && Describes(r.value.principal, t, input.tokenVerifier)
  {
    hide Inv, CountWrongCode, SpendChallenge, InvalidateChallenges, OnlyChallenge, SpentFor, OrderedMap.Valid;
    if c in s.challenges.entries {
      ChallengeBasics(s, c);
      CountedIs(s, c);
      InvalidateOutcome(s, c, now);
      var u := s.challenges.entries[c].accountId;
      var spent := SpendChallenge(s, c, now, NewSession(input, u, None));
      SpentIs(s, c, now, input);
      if Comparable(s, c, now) && IsActive(s, u) {
        assert Describes(SessionPrincipal(s.accountsById[u], NewSession(input, u, None)), spent, input.tokenVerifier);
      }
    }
  }

  /** The challenge is spent on the session that was asked for, of the challenge's account. */
  ghost predicate SpentFor(s: Repo, t: Repo, c: ChallengeId, now: Time, input: SessionInput) {
    && OnlySession(s, t.(challenges := s.challenges), input.tokenVerifier)
    && OnlyChallenge(s, t.(sessions := s.sessions), c)
    && t.challenges.entries[c] == s.challenges.entries[c].(usedAt := Some(now))
    && IsNewSession(t.sessions.entries[input.tokenVerifier], input, s.challenges.entries[c].accountId, input.issuedAt,
         None)
  }

  lemma CountedIs(s: Repo, c: ChallengeId)
    requires c in s.challenges.entries
    ensures
      var t, was := CountWrongCode(s, c), s.challenges.entries[c];
      OnlyChallenge(s, t, c) && t.challenges.entries[c] == was.(attempts := was.attempts + 1)
  {
  }

  lemma SpentIs(s: Repo, c: ChallengeId, now: Time, input: SessionInput)
    requires c in s.challenges.entries
    ensures
      var t := SpendChallenge(s, c, now, NewSession(input, s.challenges.entries[c].accountId, None));
      && SpentFor(s, t, c, now, input)
      && t.accountsById == s.accountsById
      && input.tokenVerifier in t.sessions.entries
      && t.sessions.entries[input.tokenVerifier] == NewSession(input, s.challenges.entries[c].accountId, None)
  {
  }

  // ---- Passkeys ----

  /** The passkey a credential names can be used: it was not revoked and its account is active. */
  predicate Usable(s: Repo, credential: CredentialId) {
    && credential in s.passkeysByCredentialId
    && s.passkeysByCredentialId[credential] in s.passkeysById.entries
    && s.passkeysById.entries[s.passkeysByCredentialId[credential]].revokedAt == None
    && IsActive(s, s.passkeysById.entries[s.passkeysByCredentialId[credential]].accountId)
  }

  /**
   * A session that may act registers exactly the verified credential it presents, for its own
   * account, under an unused credential and passkey id.
   */
  lemma RegisterOutcome(s: Repo, actor: Verifier, now: Time, input: PasskeyInput)
    ensures
      var (t, r) := RegisterPasskey(s, actor, now, input);
      var admitted := MayAct(s, actor, now) && s.sessions.entries[actor].input.issuedAt <= now && input.userVerified;
      var taken := input.credentialId in s.passkeysByCredentialId || input.passkeyId in s.passkeysById.entries;
      && r == (if !admitted then Thrown(Authorization) else if taken then Thrown(Conflict)
               else Ok(s.sessions.entries[actor].accountId))
      && (!r.Ok? ==> t == s)
      && (r.Ok? ==>
            && t == s.(passkeysById := t.passkeysById, passkeysByCredentialId := t.passkeysByCredentialId)
            && t.passkeysByCredentialId == s.passkeysByCredentialId[input.credentialId := input.passkeyId]
            && t.passkeysById.order == s.passkeysById.order + [input.passkeyId]
            && t.passkeysById.entries == s.passkeysById.entries[input.passkeyId :=
                 Passkey(input.passkeyId, r.value, input.credentialId, input.attestation, now, input.backup,
                   input.backup, None, input.signCount, None)])
  {
  }

  /** A credential is read exactly while its passkey can be used, and not before it was made. */
  lemma ReadOutcome(s: Repo, credential: CredentialId, now: Time)
    requires Inv(s)
    ensures
      var r := ReadPasskey(s, credential, now);
      && (r.Some? <==>
            Usable(s, credential) && s.passkeysById.entries[s.passkeysByCredentialId[credential]].createdAt <= now)
      && (r.Some? ==>
            var p := s.passkeysByCredentialId[credential];
            && r.value.passkeyId == p && r.value.credentialId == credential
            && r.value.accountId == s.passkeysById.entries[p].accountId
            && r.value.signCount == s.passkeysById.entries[p].signCount)
  {
    if credential in s.passkeysByCredentialId { CredentialBasics(s, credential); }
    hide Inv;
  }

  /**
   * A login with a usable passkey, a verified user, the expected counter and unused names succeeds:
   * the session asked for is open for the passkey's account, the passkey remembers the use, and
   * nothing else changes. Any other login changes nothing.
   */
  lemma LoginOutcome(s: Repo, now: Time, input: LoginInput)
    requires Inv(s)
    ensures
      var (t, r) := CompletePasskeyLogin(s, now, input);
      var token := input.session.tokenVerifier;
      var named := token in s.sessions.entries
        || exists v :: v in s.sessions.entries && s.sessions.entries[v].input.sessionId == input.session.sessionId;
      if !Usable(s, input.credentialId) || !input.userVerified then t == s && r == Ok(None)
      else
        var p := s.passkeysByCredentialId[input.credentialId];
        var was := s.passkeysById.entries[p];
        if was.signCount != input.expectedSignCount || named then t == s && r == Thrown(Conflict)
        else
          && OnlySession(s, t.(passkeysById := s.passkeysById), token)
          && IsNewSession(t.sessions.entries[token], input.session, was.accountId, now, None)
          && t.passkeysById.order == s.passkeysById.order
          && t.passkeysById.entries == s.passkeysById.entries[p := was.(
               signCount := if was.signCount < input.observedSignCount then input.observedSignCount else was.signCount,
               lastBackup := input.backup, lastUsedAt := Some(now))]
          && r.Ok? && r.value.Some?
          && r.value.value.accountId == was.accountId && r.value.value.sessionId == input.session.sessionId
  {
    hide Inv, OrderedMap.Valid, CounterStatus;
    if input.credentialId in s.passkeysByCredentialId { CredentialBasics(s, input.credentialId); }
    var u := UsablePasskey(s, input.credentialId);
    assert u.Some? <==> Usable(s, input.credentialId);
  }

  // ---- Administration ----

  /** The account record that callers get tells the stored account. */
  predicate Tells(record: AccountRecord, a: Account) {
    && record.userId == a.userId && record.email == a.email && record.displayName == a.displayName
    && record.domainStatus == a.domainStatus && record.grants == a.grants && record.status == a.status
  }

  lemma RecordTells(a: Account)
    ensures Tells(CloneAccount(a), a)
  {
  }

  /** The first administrator is the owner; after it nobody else is bootstrapped, and it only again by its own names. */
  lemma BootstrapOutcome(s: Repo, id: BootstrapId, u: UserId, email: Email, name: Text)
    requires Inv(s)
    ensures
      var (t, r) := Bootstrap(s, id, u, email, name);
      if s.accountsById == map[] then
        && t == s.(accountsById := t.accountsById, accountsByEmail := map[email := u],
                   bootstrapAccounts := map[id := u])
        && t.accountsById ==
             map[u := Account(u, email, name, INCUBATOR_PARTICIPANT, [PlatformAdministrator], true, Active)]
        && r.Ok? && r.value.created && Tells(r.value.account, t.accountsById[u])
      else
        && t == s
        && (r.Ok? <==> id in s.bootstrapAccounts && s.bootstrapAccounts[id] == u && s.accountsById[u].email == email)
        && (r.Ok? ==> !r.value.created && Tells(r.value.account, s.accountsById[u]))
        && (r.Thrown? ==> r.error == Conflict)
  {
    if s.accountsById == map[] {
      assert s.bootstrapAccounts == map[];
      assert forall e :: e !in s.accountsByEmail;
      assert s.accountsByEmail == map[];
    } else {
      assert s.bootstrapAccounts != map[];
      assert forall b :: b in s.bootstrapAccounts ==> s.bootstrapAccounts[b] in s.accountsById;
    }
    hide Inv;
  }

  /** The acting session's idle clock is renewed, and nothing else of any session changes. */
  ghost predicate OnlyTouched(before: Sessions, after: Sessions, actor: Verifier, now: Time) {
    && after.order == before.order && after.entries.Keys == before.entries.Keys
    && forall v :: v in before.entries ==>
         after.entries[v] ==
           if v != actor then before.entries[v]
           else before.entries[v].(lastSeenAt := now,
                  idleExpiresAt :=
                    Earlier(before.entries[v].input.absoluteExpiresAt, now + before.entries[v].input.idleLifetime))
  }

  /** The acting session is checked and touched, or nothing happens. */
  lemma GateOutcome(s: Repo, actor: Verifier, now: Time)
    requires Inv(s)
    ensures
      var r := RequireAdministrator(s, actor, now);
      && (r.Some? <==> MayAdminister(s, actor, now))
      && (r.Some? ==>
            && r.value == s.(sessions := r.value.sessions)
            && OnlyTouched(s.sessions, r.value.sessions, actor, now))
      && (OwnerActs(s, actor) <==> ActsAsOwner(s, actor))
  {
    if actor in s.sessions.entries { SessionBasics(s, actor); assert s.sessions.Valid(); }
    hide Inv;
  }

  /** Past the gate, a request acts on this state. */
  ghost predicate Past(s: Repo, t: Repo, actor: Verifier, now: Time) {
    t == s.(sessions := t.sessions) && OnlyTouched(s.sessions, t.sessions, actor, now)
  }

  /** Nobody but an administrator gets past the gate, and then the request acts on the touched state. */
  lemma ThroughTheGate(s: Repo, actor: Verifier, now: Time, request: Administration) returns (t: Repo)
    requires Inv(s)
    ensures !MayAdminister(s, actor, now) ==>
      AsAdministrator(s, actor, now, request) == (s, Thrown(Authorization))
    ensures MayAdminister(s, actor, now) ==>
      && Past(s, t, actor, now)
      && AsAdministrator(s, actor, now, request) == Administer(t, ActsAsOwner(s, actor), request, now)
  {
    hide Inv, Administer;
    GateOutcome(s, actor, now);
    var gate := RequireAdministrator(s, actor, now);
    t := if gate.Some? then gate.value else s;
  }

  /** Of the accounts only this one has changed, to this; of the sessions only the acting one's idle clock. */
  ghost predicate OnlyAccount(s: Repo, t: Repo, actor: Verifier, now: Time, u: UserId, a: Account) {
    && t == s.(accountsById := s.accountsById[u := a], sessions := t.sessions)
    && OnlyTouched(s.sessions, t.sessions, actor, now)
  }

  /** Of the indexes and accounts nothing else changes; what a refused request leaves behind. */
  ghost predicate Unchanged(s: Repo, t: Repo, actor: Verifier, now: Time) {
    t == s || Past(s, t, actor, now)
  }

  /** A new account, without grants and active, under an unused id and address. */
  lemma CreateAccountOutcome(s: Repo, actor: Verifier, now: Time, u: UserId, email: Email, name: Text)
    requires Inv(s)
    ensures
      var (t, r) := AsAdministrator(s, actor, now, CreateAccount(u, email, name));
      if !MayAdminister(s, actor, now) then t == s && r == Thrown(Authorization)
      else if u in s.accountsById || email in s.accountsByEmail then Past(s, t, actor, now) && r == Thrown(Conflict)
      else
        var made := Account(u, email, name, INCUBATOR_PARTICIPANT, [], false, Active);
        && OnlyAccount(s, t.(accountsByEmail := s.accountsByEmail), actor, now, u, made)
        && t.accountsByEmail == s.accountsByEmail[email := u]
        && r.Ok? && r.value.AccountReply? && Tells(r.value.account, made)
  {
    hide Inv, AsAdministrator, RequireAdministrator, MayAdminister, OnlyTouched;
    hide ResetAccess, AddGrant, RemoveGrant, RevokeAll, RevokeOne, ChangeStatus, ChangeDomainStatus, ChangeProfile;
    var _ := ThroughTheGate(s, actor, now, CreateAccount(u, email, name));
  }

  /**
   * A grant given is held, once, after those held before; a grant taken is gone and the others stay
   * in order. Only the owner gives or takes administration, and the owner's own stays.
   */
  lemma GiveGrantOutcome(s: Repo, actor: Verifier, now: Time, u: UserId, g: Grant)
    requires Inv(s)
    ensures
      var (t, r) := AsAdministrator(s, actor, now, GiveGrant(u, g));
      if !MayAdminister(s, actor, now) then t == s && r == Thrown(Authorization)
      else if g == PlatformAdministrator && !ActsAsOwner(s, actor) then
        Past(s, t, actor, now) && r == Thrown(Authorization)
      else if u !in s.accountsById then Past(s, t, actor, now) && r == Thrown(NotFound)
      else
        var a := s.accountsById[u];
        && u in t.accountsById
        && var after := t.accountsById[u];
           && OnlyAccount(s, t, actor, now, u, a.(grants := after.grants))
           && a.grants <= after.grants && g in after.grants
           && (g in a.grants ==> after.grants == a.grants) && |after.grants| <= |a.grants| + 1
           && r.Ok? && r.value.AccountReply? && Tells(r.value.account, after)
  {
    hide Inv, AsAdministrator, RequireAdministrator, MayAdminister, OnlyTouched;
    hide ResetAccess, AddAccount, RemoveGrant, RevokeAll, RevokeOne, ChangeStatus, ChangeDomainStatus, ChangeProfile;
    var _ := ThroughTheGate(s, actor, now, GiveGrant(u, g));
  }

  /** The one place at which it stood is cut out, if there was one. */
  ghost predicate IsWithout(r: seq<Grant>, all: seq<Grant>, g: Grant) {
    && g !in r
    && if g !in all then r == all
       else exists i :: 0 <= i < |all| && all[i] == g && r == all[..i] + all[i + 1..]
  }

  lemma DistinctTail(grants: seq<Grant>)
    requires Distinct(grants) && grants != []
    ensures Distinct(grants[1..]) && grants[0] !in grants[1..]
  {
  }

  lemma {:induction false} NothingToTake(grants: seq<Grant>, g: Grant)
    requires g !in grants
    ensures WithoutGrant(grants, g) == grants
  {
    if grants != [] { NothingToTake(grants[1..], g); }
  }

  /** The place at which the grant stands is the one cut out. */
  lemma {:induction false} TakenAt(grants: seq<Grant>, g: Grant) returns (i: nat)
    requires Distinct(grants) && g in grants
    ensures i < |grants| && grants[i] == g && WithoutGrant(grants, g) == grants[..i] + grants[i + 1..]
  {
    hide Distinct;
    var rest := grants[1..];
    DistinctTail(grants);
    if grants[0] == g {
      i := 0;
      NothingToTake(rest, g);
    } else {
      var k := TakenAt(rest, g);
      i := k + 1;
      assert grants[..i] == [grants[0]] + rest[..k] && grants[i + 1..] == rest[k + 1..];
    }
  }

  lemma WithoutGrantIsWithout(grants: seq<Grant>, g: Grant)
    requires Distinct(grants)
    ensures IsWithout(WithoutGrant(grants, g), grants, g)
  {
    if g in grants { var _ := TakenAt(grants, g); } else { NothingToTake(grants, g); }
  }

  lemma TakeGrantOutcome(s: Repo, actor: Verifier, now: Time, u: UserId, g: Grant)
    requires Inv(s)
    ensures
      var (t, r) := AsAdministrator(s, actor, now, TakeGrant(u, g));
      if !MayAdminister(s, actor, now) then t == s && r == Thrown(Authorization)
      else if g == PlatformAdministrator && !ActsAsOwner(s, actor) then
        Past(s, t, actor, now) && r == Thrown(Authorization)
      else if u !in s.accountsById then Past(s, t, actor, now) && r == Thrown(NotFound)
      else if g == PlatformAdministrator && s.accountsById[u].isServerOwner then
        Past(s, t, actor, now) && r == Thrown(Conflict)
      else
        && u in t.accountsById
        && var (a, after) := (s.accountsById[u], t.accountsById[u]);
           && OnlyAccount(s, t, actor, now, u, a.(grants := after.grants))
           && IsWithout(after.grants, a.grants, g)
           && r.Ok? && r.value.AccountReply? && Tells(r.value.account, after)
  {
    hide Inv, AsAdministrator, RequireAdministrator, MayAdminister, OnlyTouched, IsWithout;
    hide ResetAccess, AddAccount, AddGrant, RevokeAll, RevokeOne, ChangeStatus, ChangeDomainStatus, ChangeProfile;
    var _ := ThroughTheGate(s, actor, now, TakeGrant(u, g));
    if u in s.accountsById {
      GrantsAreDistinct(s, u);
      WithoutGrantIsWithout(s.accountsById[u].grants, g);
    }
  }

  lemma GrantsAreDistinct(s: Repo, u: UserId)
    requires Inv(s) && u in s.accountsById
    ensures Distinct(s.accountsById[u].grants)
  {
  }

  /** The domain status is what was asked for, and nothing else changes. */
  lemma SetDomainStatusOutcome(s: Repo, actor: Verifier, now: Time, u: UserId, domain: Text)
    requires Inv(s)
    ensures
      var (t, r) := AsAdministrator(s, actor, now, SetDomainStatus(u, domain));
      if !MayAdminister(s, actor, now) then t == s && r == Thrown(Authorization)
      else if u !in s.accountsById then Past(s, t, actor, now) && r == Thrown(NotFound)
      else
        && OnlyAccount(s, t, actor, now, u, s.accountsById[u].(domainStatus := domain))
        && r.Ok? && r.value.AccountReply? && Tells(r.value.account, t.accountsById[u])
  {
    hide Inv, AsAdministrator, RequireAdministrator, MayAdminister, OnlyTouched;
    hide ResetAccess, AddAccount, AddGrant, RemoveGrant, RevokeAll, RevokeOne, ChangeStatus, ChangeProfile;
    var _ := ThroughTheGate(s, actor, now, SetDomainStatus(u, domain));
  }

  /**
   * Address and name are what was asked for; the new address leads to the account, its old one, if
   * another, to nobody, and every other address where it did. Another account's address conflicts.
   */
  lemma UpdateAccountOutcome(s: Repo, actor: Verifier, now: Time, u: UserId, email: Email, name: Text)
    requires Inv(s)
    ensures
      var (t, r) := AsAdministrator(s, actor, now, UpdateAccount(u, email, name));
      if !MayAdminister(s, actor, now) then t == s && r == Thrown(Authorization)
      else if u !in s.accountsById then Past(s, t, actor, now) && r == Thrown(NotFound)
      else if email in s.accountsByEmail && s.accountsByEmail[email] != u then
        Past(s, t, actor, now) && r == Thrown(Conflict)
      else
        var was := s.accountsById[u].email;
        && OnlyAccount(s, t.(accountsByEmail := s.accountsByEmail), actor, now, u,
             s.accountsById[u].(email := email, displayName := name))
        && email in t.accountsByEmail && t.accountsByEmail[email] == u
        && (was != email ==> was !in t.accountsByEmail)
        && (forall e :: e != email && e != was ==>
              (e in t.accountsByEmail <==> e in s.accountsByEmail)
              && (e in s.accountsByEmail ==> t.accountsByEmail[e] == s.accountsByEmail[e]))
        && r.Ok? && r.value.AccountReply? && Tells(r.value.account, t.accountsById[u])
  {
    hide Inv, AsAdministrator, RequireAdministrator, MayAdminister, OnlyTouched;
    hide ResetAccess, AddAccount, AddGrant, RemoveGrant, RevokeAll, RevokeOne, ChangeStatus, ChangeDomainStatus;
    var _ := ThroughTheGate(s, actor, now, UpdateAccount(u, email, name));
  }

  /** What belonged to the account and was open is closed at this time; everything else stays. */
  ghost predicate ClosedFor(s: Repo, t: Repo, u: UserId, now: Time) {
    && t.sessions.order == s.sessions.order && t.sessions.entries.Keys == s.sessions.entries.Keys
    && t.challenges.order == s.challenges.order && t.challenges.entries.Keys == s.challenges.entries.Keys
    && t.passkeysById.order == s.passkeysById.order && t.passkeysById.entries.Keys == s.passkeysById.entries.Keys
    && (forall v :: v in s.sessions.entries ==>
          var was := s.sessions.entries[v];
          t.sessions.entries[v] ==
            if was.accountId == u && was.revokedAt == None then was.(revokedAt := Some(now)) else was)
    && (forall c :: c in s.challenges.entries ==>
          var was := s.challenges.entries[c];
          t.challenges.entries[c] ==
            if was.accountId == u && was.usedAt == None && was.invalidatedAt == None
            then was.(invalidatedAt := Some(now)) else was)
    && (forall p :: p in s.passkeysById.entries ==>
          var was := s.passkeysById.entries[p];
          t.passkeysById.entries[p] ==
            if was.accountId == u && was.revokedAt == None then was.(revokedAt := Some(now)) else was)
  }

  /**
   * The status asked for is the stored one and the one replied, and no other field or account
   * changes; deactivating also closes everything the account had open.
   */
  lemma SetStatusOutcome(s: Repo, actor: Verifier, now: Time, u: UserId, status: Status)
    requires Inv(s)
    ensures
      var (t, r) := AsAdministrator(s, actor, now, SetStatus(u, status));
      if !MayAdminister(s, actor, now) then t == s && r == Thrown(Authorization)
      else if u !in s.accountsById then Past(s, t, actor, now) && r == Thrown(NotFound)
      else
        && t == s.(accountsById := s.accountsById[u := s.accountsById[u].(status := status)],
                   sessions := t.sessions, challenges := t.challenges, passkeysById := t.passkeysById)
        && r.Ok? && r.value.AccountReply? && Tells(r.value.account, t.accountsById[u])
        && (status == Active ==> OnlyAccount(s, t, actor, now, u, s.accountsById[u].(status := Active)))
        && (status == Deactivated ==> exists touched :: Past(s, touched, actor, now) && ClosedFor(touched, t, u, now))
  {
    hide Inv, AsAdministrator, RequireAdministrator, MayAdminister, OnlyTouched, ClosedFor, RevokeSessions,
         InvalidateChallenges, RevokePasskeys;
    hide ResetAccess, AddAccount, AddGrant, RemoveGrant, RevokeAll, RevokeOne, ChangeDomainStatus, ChangeProfile;
    var touched := ThroughTheGate(s, actor, now, SetStatus(u, status));
    if MayAdminister(s, actor, now) && u in s.accountsById && status == Deactivated {
      var t := AsAdministrator(s, actor, now, SetStatus(u, status)).0;
      var changed := PutAccount(touched, u, s.accountsById[u].(status := status));
      CloseAccessCloses(changed, u, now);
      ClosedForIgnoresAccounts(changed, touched, t, u, now);
    }
  }

  lemma CloseAccessCloses(s: Repo, u: UserId, now: Time)
    ensures ClosedFor(s, CloseAccess(s, u, now), u, now)
  {
  }

  lemma ClosedForIgnoresAccounts(s: Repo, same: Repo, t: Repo, u: UserId, now: Time)
    requires ClosedFor(s, t, u, now)
    requires s.sessions == same.sessions && s.challenges == same.challenges && s.passkeysById == same.passkeysById
    ensures ClosedFor(same, t, u, now)
  {
  }

  /** A security reset closes all that, changes no account, and counts what it closed. */
  lemma SecurityResetOutcome(s: Repo, actor: Verifier, now: Time, u: UserId)
    requires Inv(s)
    ensures
      var (t, r) := AsAdministrator(s, actor, now, SecurityReset(u));
      if !MayAdminister(s, actor, now) then t == s && r == Thrown(Authorization)
      else if u !in s.accountsById then Past(s, t, actor, now) && r == Thrown(NotFound)
      else
        && t == s.(sessions := t.sessions, challenges := t.challenges, passkeysById := t.passkeysById)
        && (exists touched :: Past(s, touched, actor, now) && ClosedFor(touched, t, u, now))
        && r.Ok? && r.value.ResetReply?
  {
    hide Inv, AsAdministrator, RequireAdministrator, MayAdminister, OnlyTouched, ClosedFor, RevokeSessions,
         InvalidateChallenges, RevokePasskeys;
    hide AddAccount, AddGrant, RemoveGrant, RevokeAll, RevokeOne, ChangeStatus, ChangeDomainStatus, ChangeProfile;
    var touched := ThroughTheGate(s, actor, now, SecurityReset(u));
    if MayAdminister(s, actor, now) && u in s.accountsById { CloseAccessCloses(touched, u, now); }
  }

  /** One session, the `i`th, is revoked, past the gate. */
  ghost predicate OneRevoked(s: Repo, t: Repo, actor: Verifier, now: Time, i: nat) {
    && i < |s.sessions.order| && s.sessions.order[i] in s.sessions.entries
    && exists touched :: Past(s, touched, actor, now) && RevokedIn(touched, t, s.sessions.order[i], now)
  }

  ghost predicate RevokedIn(s: Repo, t: Repo, v: Verifier, now: Time) {
    && v in s.sessions.entries && OnlySession(s, t, v)
    && t.sessions.entries[v] == s.sessions.entries[v].(revokedAt := Some(now))
  }

  /** By session id the first live session of the account, in the order they were created, is revoked. */
  lemma RevokeOneOutcome(s: Repo, actor: Verifier, now: Time, u: UserId, id: SessionId)
    requires Inv(s)
    ensures
      var (t, r) := AsAdministrator(s, actor, now, RevokeSession(u, id));
      if !MayAdminister(s, actor, now) then t == s && r == Thrown(Authorization)
      else if u !in s.accountsById then Past(s, t, actor, now) && r == Thrown(NotFound)
      else if exists i :: 0 <= i < |s.sessions.order| && Matches(s.sessions, i, u, id) then
        r == Ok(FlagReply(true))
          && exists i: nat :: FirstMatch(s.sessions, i, u, id) && OneRevoked(s, t, actor, now, i)
      else Past(s, t, actor, now) && r == Ok(FlagReply(false))
  {
    hide Inv, AsAdministrator, RequireAdministrator, MayAdminister, RevokeSessions, OnlyTouched, FirstLiveSession;
    hide Matches, FirstMatch, OneRevoked;
    hide ResetAccess, AddAccount, AddGrant, RemoveGrant, RevokeAll, ChangeStatus, ChangeDomainStatus, ChangeProfile;
    var touched := ThroughTheGate(s, actor, now, RevokeSession(u, id));
    if MayAdminister(s, actor, now) && u in s.accountsById {
      SameMatches(s.sessions, touched.sessions, actor, now, u, id);
      FirstIsFirst(touched.sessions, 0, u, id);
      assert touched.sessions.order[0..] == touched.sessions.order;
      var found := FirstLiveSession(touched.sessions, touched.sessions.order, u, id);
      if found.Some? {
        var i: nat :| FirstMatch(touched.sessions, i, u, id) && i < |touched.sessions.order|
          && touched.sessions.order[i] == found.value;
        RevokedPastTheGate(s, touched, actor, now, i, u, id);
      }
    }
  }

  lemma RevokedPastTheGate(
      s: Repo, touched: Repo, actor: Verifier, now: Time, i: nat, u: UserId, id: SessionId)
    requires Past(s, touched, actor, now) && i < |touched.sessions.order| && FirstMatch(touched.sessions, i, u, id)
    ensures
      var t := touched.(sessions := RevokeSessions(touched.sessions, {touched.sessions.order[i]}, now));
      OneRevoked(s, t, actor, now, i)
  {
    OneRevokedIs(touched, touched.sessions.order[i], now);
    hide RevokeSessions, OnlySession;
  }

  lemma OneRevokedIs(s: Repo, v: Verifier, now: Time)
    requires v in s.sessions.entries
    ensures
      var t := s.(sessions := RevokeSessions(s.sessions, {v}, now));
      RevokedIn(s, t, v, now)
  {
  }

  predicate Matches(sessions: Sessions, i: nat, u: UserId, id: SessionId)
    requires i < |sessions.order|
  {
    && sessions.order[i] in sessions.entries
    && var session := sessions.entries[sessions.order[i]];
       session.accountId == u && session.input.sessionId == id && session.revokedAt == None
  }

  ghost predicate FirstMatch(sessions: Sessions, i: nat, u: UserId, id: SessionId) {
    i < |sessions.order| && Matches(sessions, i, u, id) && forall j :: 0 <= j < i ==> !Matches(sessions, j, u, id)
  }

  lemma SameMatches(s: Sessions, t: Sessions, actor: Verifier, now: Time, u: UserId, id: SessionId)
    requires OnlyTouched(s, t, actor, now)
    ensures |s.order| == |t.order|
    ensures forall i :: 0 <= i < |s.order| ==> (Matches(s, i, u, id) <==> Matches(t, i, u, id))
    ensures forall i: nat :: FirstMatch(s, i, u, id) <==> FirstMatch(t, i, u, id)
  {
  }

  lemma {:induction false} FirstIsFirst(sessions: Sessions, n: nat, u: UserId, id: SessionId)
    requires n <= |sessions.order| && forall j :: 0 <= j < n ==> !Matches(sessions, j, u, id)
    ensures
      var found := FirstLiveSession(sessions, sessions.order[n..], u, id);
      && (found.Some? <==> exists i :: 0 <= i < |sessions.order| && Matches(sessions, i, u, id))
      && (found.Some? ==> exists i: nat ::
            FirstMatch(sessions, i, u, id) && i < |sessions.order| && sessions.order[i] == found.value)
    decreases |sessions.order| - n
  {
    if n < |sessions.order| {
      assert sessions.order[n..][1..] == sessions.order[n + 1..];
      if Matches(sessions, n, u, id) {
        assert FirstMatch(sessions, n, u, id);
      } else {
        FirstIsFirst(sessions, n + 1, u, id);
      }
    }
  }
}
