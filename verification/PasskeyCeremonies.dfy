/**
 * Passkey ceremonies: the single-use store, the two finishing requests of the service, and the
 * system in which any number of them run interleaved.
 *
 * Client context keys and session verifiers are keyed hashes and only compared for equality.
 * The WebAuthn check is an oracle: a function from what it is shown to its verdict.
 */
module PasskeyCeremonies {
  import opened Collections
  import opened AuthState
  import opened AuthInvariant
  import opened LocalRepository
  import opened AuthOutcomes

  type CeremonyId = nat
  type ContextKey = nat
  type Challenge64 = string

  datatype Ceremony =
    | Registration(challenge: Challenge64, context: ContextKey, accountId: UserId, sessionVerifier: Verifier)
    | Authentication(challenge: Challenge64, context: ContextKey)

  datatype PutResult = Stored | NotStored
  datatype TakeResult = Found(ceremony: Ceremony) | Missing | Unavailable

  predicate Base64Url(c: char) {
    'A' <= c <= 'Z' || 'a' <= c <= 'z' || '0' <= c <= '9' || c == '-' || c == '_'
  }

  /** The challenges the service stores. */
  predicate ServiceAccepts(challenge: Challenge64) {
    1 <= |challenge| <= 1366 && forall i :: 0 <= i < |challenge| ==> Base64Url(challenge[i])
  }

  /** The challenges the store hands back. */
  predicate StoreAccepts(challenge: Challenge64) {
    16 <= |challenge| <= 512 && forall i :: 0 <= i < |challenge| ==> Base64Url(challenge[i])
  }

  type Entries = map<CeremonyId, Ceremony>

  function PutCeremony(entries: Entries, id: CeremonyId, ceremony: Ceremony, ttl: int): (Entries, PutResult) {
    if ttl <= 0 || id in entries then (entries, NotStored) else (entries[id := ceremony], Stored)
  }

  function TakeCeremony(entries: Entries, id: CeremonyId): (Entries, TakeResult) {
    (entries - {id},
     if id !in entries then Missing
     else if StoreAccepts(entries[id].challenge) then Found(entries[id])
     else Unavailable)
  }

  class CeremonyStore {
    var entries: Entries

    constructor ()
      ensures entries == map[]
    {
      entries := map[];
    }

    method Put(id: CeremonyId, ceremony: Ceremony, ttl: int) returns (r: PutResult)
      modifies this
      ensures (entries, r) == PutCeremony(old(entries), id, ceremony, ttl)
    {
      if ttl <= 0 { return NotStored; }
      if id in entries { return NotStored; }
      entries := entries[id := ceremony];
      r := Stored;
    }

    method Take(id: CeremonyId) returns (r: TakeResult)
      modifies this
      ensures (entries, r) == TakeCeremony(old(entries), id)
    {
      if id !in entries {
        assert entries - {id} == entries;
        return Missing;
      }
      var value := entries[id];
      entries := entries - {id};
      if !StoreAccepts(value.challenge) { return Unavailable; }
      r := Found(value);
    }
  }

  /**
   * What was stored comes back once, and then never again. It comes back intact exactly when its
   * challenge is one the store hands back: the service also stores shorter and longer ones, whose
   * ceremonies can never be finished.
   */
  lemma StoredOnceTakenOnce(entries: Entries, id: CeremonyId, ceremony: Ceremony, ttl: int)
    requires PutCeremony(entries, id, ceremony, ttl).1 == Stored
    ensures
      var stored := PutCeremony(entries, id, ceremony, ttl).0;
      var first := TakeCeremony(stored, id);
      && (first.1 == Found(ceremony) <==> StoreAccepts(ceremony.challenge))
      && (first.1 == Unavailable <==> !StoreAccepts(ceremony.challenge))
      && first.0 == entries
      && TakeCeremony(first.0, id).1 == Missing
  {
    assert entries[id := ceremony] - {id} == entries;
  }

  /** A ceremony is stored exactly under an unused id with a positive lifetime; taking one touches no other. */
  lemma OnlyThisCeremony(entries: Entries, id: CeremonyId, ceremony: Ceremony, ttl: int)
    ensures
      var (after, r) := PutCeremony(entries, id, ceremony, ttl);
      && (r == Stored <==> ttl > 0 && id !in entries)
      && (r == Stored ==> id in after && after[id] == ceremony && after.Keys == entries.Keys + {id})
      && (r == NotStored ==> after == entries)
      && (forall other :: other in entries ==> other in after && after[other] == entries[other])
    ensures
      var (left, r) := TakeCeremony(entries, id);
      && (r == Missing <==> id !in entries)
      && left.Keys == entries.Keys - {id}
      && (forall other :: other in entries && other != id ==> left[other] == entries[other])
  {
  }

  /** Of the challenges the service stores, exactly those shorter than 16 or longer than 512 are lost. */
  lemma LostChallenges(challenge: Challenge64)
    requires 1 <= |challenge| <= 1366
    requires forall i :: 0 <= i < |challenge| ==>
      var c := challenge[i];
      'A' <= c <= 'Z' || 'a' <= c <= 'z' || '0' <= c <= '9' || c == '-' || c == '_'
    ensures ServiceAccepts(challenge)
    ensures StoreAccepts(challenge) <==> 16 <= |challenge| <= 512
  {
  }

  lemma ShortChallengesAreLost()
    ensures ServiceAccepts("A") && !StoreAccepts("A")
  {
  }

  // ---- The two finishing requests, one at a time ----

  datatype Refusal = InvalidPasskey | InvalidSession | ServiceUnavailable
  datatype Outcome<+T> = Finished(value: T) | Refused(why: Refusal)

  /** `responseOk` and `withinLimits` are the size check of the response and the rate limits. */
  datatype LoginRequest = LoginRequest(
    id: CeremonyId, context: ContextKey, responseOk: bool, withinLimits: bool,
    credentialId: Option<CredentialId>, now: Time, session: SessionInput)

  datatype Assertion = Assertion(userVerified: bool, observedSignCount: nat, backup: Backup)

  datatype RegistrationRequest = RegistrationRequest(
    id: CeremonyId, context: ContextKey, responseOk: bool, withinLimits: bool,
    sessionVerifier: Verifier, now: Time, passkeyId: PasskeyId)

  datatype Attestation = Attestation(
    userVerified: bool, credentialId: CredentialId, attestation: Text, backup: Backup, signCount: nat)

  function LoginInputOf(request: LoginRequest, credential: Credential, a: Assertion): LoginInput {
    LoginInput(credential.credentialId, credential.signCount, a.observedSignCount, a.backup, a.userVerified,
      request.session)
  }

  function PasskeyInputOf(request: RegistrationRequest, a: Attestation): PasskeyInput {
    PasskeyInput(request.passkeyId, a.credentialId, a.attestation, a.backup, a.signCount, a.userVerified)
  }

  type LoginCheck = (Credential, Challenge64) -> Option<Assertion>
  type RegistrationCheck = Challenge64 -> Option<Attestation>

  /** The verdict on a login, once its ceremony has been taken and its credential read. */
  function LoginVerdict(
      s: Repo, q: LoginRequest, challenge: Challenge64, verify: LoginCheck): Option<(Credential, Assertion)> {
    var credential := if q.credentialId.None? then None else ReadPasskey(s, q.credentialId.value, q.now);
    if credential.None? then None
    else
      var verified := verify(credential.value, challenge);
      if verified.None? || !verified.value.userVerified then None else Some((credential.value, verified.value))
  }

  function FinishLogin(store: Entries, s: Repo, q: LoginRequest, verify: LoginCheck): (Entries, Repo, Outcome<Login>) {
    if !q.responseOk || !q.withinLimits then (store, s, Refused(InvalidPasskey))
    else
      var (left, taken) := TakeCeremony(store, q.id);
      if taken.Unavailable? then (left, s, Refused(ServiceUnavailable))
      else if taken.Missing? || !taken.ceremony.Authentication? || taken.ceremony.context != q.context then
        (left, s, Refused(InvalidPasskey))
      else
        match LoginVerdict(s, q, taken.ceremony.challenge, verify)
        case None => (left, s, Refused(InvalidPasskey))
        case Some((credential, assertion)) =>
          var (t, completed) := CompletePasskeyLogin(s, q.now, LoginInputOf(q, credential, assertion));
          (left, t, if completed.Ok? && completed.value.Some? then Finished(completed.value.value)
            else Refused(InvalidPasskey))
  }

  /**
   * Once a login request has passed the first two checks its ceremony is gone, whatever happens
   * next; a session is opened only for a stored authentication ceremony with the client context of
   * the request, and only when the oracle accepted that ceremony's challenge. A refused request
   * leaves the repository as it was.
   */
  lemma FinishedLoginsAreEarned(store: Entries, s: Repo, q: LoginRequest, verify: LoginCheck)
    requires Inv(s)
    ensures
      var (left, t, r) := FinishLogin(store, s, q, verify);
      && left == (if q.responseOk && q.withinLimits then store - {q.id} else store)
      && (r.Refused? ==> t == s)
      && (r.Finished? ==>
            && q.id in store && store[q.id] == Authentication(store[q.id].challenge, q.context)
            && StoreAccepts(store[q.id].challenge)
            && q.session.tokenVerifier !in s.sessions.entries && q.session.tokenVerifier in t.sessions.entries
            && t.sessions.entries[q.session.tokenVerifier].accountId == r.value.accountId
            && r.value.sessionId == q.session.sessionId
            && exists credential, assertion ::
                 && verify(credential, store[q.id].challenge) == Some(assertion) && assertion.userVerified
                 && credential.accountId == r.value.accountId && q.credentialId == Some(credential.credentialId))
  {
    if q.credentialId.Some? && q.credentialId.value in s.passkeysByCredentialId {
      CredentialBasics(s, q.credentialId.value);
      InvBasics(s);
    }
    hide Inv;
    if FinishLogin(store, s, q, verify).2.Finished? {
      var verdict := LoginVerdict(s, q, store[q.id].challenge, verify).value;
      assert verify(verdict.0, store[q.id].challenge) == Some(verdict.1);
    }
  }

  /** The repository answers for the account of the credential that was read and the session that was asked for. */
  lemma LoginAnswersAsAsked(s: Repo, q: LoginRequest, a: Assertion)
    requires Inv(s) && q.credentialId.Some?
    ensures
      var credential := ReadPasskey(s, q.credentialId.value, q.now);
      credential.Some? ==>
        var completed := CompletePasskeyLogin(s, q.now, LoginInputOf(q, credential.value, a)).1;
        completed.Ok? && completed.value.Some? ==>
          completed.value.value.accountId == credential.value.accountId
            && completed.value.value.sessionId == q.session.sessionId
  {
    if q.credentialId.value in s.passkeysByCredentialId { CredentialBasics(s, q.credentialId.value); InvBasics(s); }
    hide Inv;
  }

  /** The store holds a ceremony that it hands back, of a login in this client context. */
  predicate HasLoginCeremony(store: Entries, q: LoginRequest) {
    && q.id in store && store[q.id] == Authentication(store[q.id].challenge, q.context)
    && StoreAccepts(store[q.id].challenge)
  }

  /** The stored passkey as it is shown to the oracle. */
  function Shown(s: Repo, credential: CredentialId): Credential
    requires Usable(s, credential)
  {
    var p := s.passkeysByCredentialId[credential];
    Credential(p, s.passkeysById.entries[p].accountId, credential, s.passkeysById.entries[p].signCount)
  }

  /** The presented credential can be used, existed by then, and the oracle accepts it with a verified user. */
  ghost predicate Proves(s: Repo, q: LoginRequest, challenge: Challenge64, verify: LoginCheck) {
    && q.credentialId.Some? && Usable(s, q.credentialId.value)
    && s.passkeysById.entries[s.passkeysByCredentialId[q.credentialId.value]].createdAt <= q.now
    && verify(Shown(s, q.credentialId.value), challenge).Some?
    && verify(Shown(s, q.credentialId.value), challenge).value.userVerified
  }

  lemma VerdictIsProof(s: Repo, q: LoginRequest, challenge: Challenge64, verify: LoginCheck)
    requires Inv(s)
    ensures
      var verdict := LoginVerdict(s, q, challenge, verify);
      && (verdict.Some? <==> Proves(s, q, challenge, verify))
      && (verdict.Some? ==>
            && verdict.value.0 == Shown(s, q.credentialId.value)
            && Some(verdict.value.1) == verify(Shown(s, q.credentialId.value), challenge))
  {
    hide Inv, ReadPasskey;
    if q.credentialId.Some? { ReadOutcome(s, q.credentialId.value, q.now); }
  }

  /**
   * A login finishes exactly when it is sound: within the limits, its ceremony stored, its credential
   * accepted for that ceremony's challenge, and the names of its session unused. Then the session it
   * asked for is there for the passkey's account.
   */
  lemma SoundLoginsFinish(store: Entries, s: Repo, q: LoginRequest, verify: LoginCheck)
    requires Inv(s)
    ensures
      var (_, t, r) := FinishLogin(store, s, q, verify);
      var sound := q.responseOk && q.withinLimits && HasLoginCeremony(store, q)
        && Proves(s, q, store[q.id].challenge, verify)
        && q.session.tokenVerifier !in s.sessions.entries
        && forall v :: v in s.sessions.entries ==> s.sessions.entries[v].input.sessionId != q.session.sessionId;
      && (r.Finished? <==> sound)
      && (r.Finished? ==>
            && r.value.accountId == Shown(s, q.credentialId.value).accountId
            && r.value.sessionId == q.session.sessionId
            && q.session.tokenVerifier in t.sessions.entries
            && IsNewSession(t.sessions.entries[q.session.tokenVerifier], q.session, r.value.accountId, q.now, None))
      && (r == Refused(ServiceUnavailable) <==>
            q.responseOk && q.withinLimits && q.id in store && !StoreAccepts(store[q.id].challenge))
  {
    hide Inv, LoginVerdict, CompletePasskeyLogin, StoreAccepts;
    if q.id in store {
      var challenge := store[q.id].challenge;
      VerdictIsProof(s, q, challenge, verify);
      var verdict := LoginVerdict(s, q, challenge, verify);
      if verdict.Some? {
        LoginOutcome(s, q.now, LoginInputOf(q, verdict.value.0, verdict.value.1));
      }
    }
  }

  method FinishAuthentication(
      store: CeremonyStore, repository: LocalAuthRepository, request: LoginRequest, verify: LoginCheck)
    returns (r: Outcome<Login>)
    requires repository.Valid()
    modifies store, repository
    ensures repository.Valid()
    ensures (store.entries, repository.State(), r)
      == FinishLogin(old(store.entries), old(repository.State()), request, verify)
  {
    hide Inv, AuthState.CompletePasskeyLogin, ReadPasskey;
    if !request.responseOk { return Refused(InvalidPasskey); }
    if !request.withinLimits { return Refused(InvalidPasskey); }
    var taken := store.Take(request.id);
    if taken.Unavailable? { return Refused(ServiceUnavailable); }
    if taken.Missing? || !taken.ceremony.Authentication? { return Refused(InvalidPasskey); }
    if taken.ceremony.context != request.context { return Refused(InvalidPasskey); }
    if request.credentialId.None? { return Refused(InvalidPasskey); }
    var credential := repository.ReadPasskeyByCredentialId(request.credentialId.value, request.now);
    if credential.None? { return Refused(InvalidPasskey); }
    var verified := verify(credential.value, taken.ceremony.challenge);
    if verified.None? || !verified.value.userVerified { return Refused(InvalidPasskey); }
    LoginAnswersAsAsked(repository.State(), request, verified.value);
    var completed := repository.CompletePasskeyLogin(request.now,
      LoginInputOf(request, credential.value, verified.value));
    if completed.Thrown? || completed.value.None? { return Refused(InvalidPasskey); }
    var login := completed.value.value;
    if login.accountId != credential.value.accountId || login.sessionId != request.session.sessionId {
      assert false;
    }
    r := Finished(login);
  }

  function FinishRegistering(
      store: Entries, s: Repo, q: RegistrationRequest, verify: RegistrationCheck): (Entries, Repo, Outcome<PasskeyId>) {
    var principal := ValidateSession(s, q.sessionVerifier, q.now);
    if !q.responseOk || !q.withinLimits then (store, s, Refused(InvalidPasskey))
    else if principal.None? then (store, s, Refused(InvalidSession))
    else
      var (left, taken) := TakeCeremony(store, q.id);
      if taken.Unavailable? then (left, s, Refused(ServiceUnavailable))
      else if
        || taken.Missing?
        || taken.ceremony != Registration(taken.ceremony.challenge, q.context, principal.value.userId,
          q.sessionVerifier)
      then (left, s, Refused(InvalidPasskey))
      else
        var verified := verify(taken.ceremony.challenge);
        if verified.None? || !verified.value.userVerified then (left, s, Refused(InvalidPasskey))
        else
          var (t, registered) := RegisterPasskey(s, q.sessionVerifier, q.now, PasskeyInputOf(q, verified.value));
          (left, t, if registered.Ok? then Finished(q.passkeyId) else Refused(InvalidPasskey))
  }

  /**
   * A registration must also come from the account and the session that its ceremony names; it
   * consumes the ceremony only when its session is valid.
   */
  lemma FinishedRegistrationsAreEarned(store: Entries, s: Repo, q: RegistrationRequest, verify: RegistrationCheck)
    requires Inv(s)
    ensures
      var (left, t, r) := FinishRegistering(store, s, q, verify);
      var principal := ValidateSession(s, q.sessionVerifier, q.now);
      && left == (if q.responseOk && q.withinLimits && principal.Some? then store - {q.id} else store)
      && (r.Refused? ==> t == s)
      && (r.Finished? ==>
            && principal.Some? && q.id in store
            && store[q.id] == Registration(store[q.id].challenge, q.context, principal.value.userId, q.sessionVerifier)
            && StoreAccepts(store[q.id].challenge) && verify(store[q.id].challenge).Some?
            && verify(store[q.id].challenge).value.userVerified
            && q.passkeyId !in s.passkeysById.entries && q.passkeyId in t.passkeysById.entries
            && t.passkeysById.entries[q.passkeyId].accountId == principal.value.userId
            && t.passkeysById.entries[q.passkeyId].credentialId == verify(store[q.id].challenge).value.credentialId)
  {
    if ValidateSession(s, q.sessionVerifier, q.now).Some? { PrincipalIsSessionAccount(s, q.sessionVerifier, q.now); }
    hide Inv;
  }

  /** The store holds a ceremony that it hands back, of a registration by this account, session and context. */
  predicate HasRegistrationCeremony(store: Entries, s: Repo, q: RegistrationRequest) {
    && q.id in store && StoreAccepts(store[q.id].challenge) && q.sessionVerifier in s.sessions.entries
    && store[q.id] == Registration(store[q.id].challenge, q.context,
         s.sessions.entries[q.sessionVerifier].accountId, q.sessionVerifier)
  }

  /** A registration finishes exactly when it is sound, and is refused for its session exactly when that may not act. */
  lemma SoundRegistrationsFinish(store: Entries, s: Repo, q: RegistrationRequest, verify: RegistrationCheck)
    requires Inv(s)
    ensures
      var (_, t, r) := FinishRegistering(store, s, q, verify);
      var admitted := MayAct(s, q.sessionVerifier, q.now)
        && s.sessions.entries[q.sessionVerifier].input.issuedAt <= q.now;
      && (r.Finished? <==>
            && q.responseOk && q.withinLimits && admitted && HasRegistrationCeremony(store, s, q)
            && var a := verify(store[q.id].challenge);
               && a.Some? && a.value.userVerified
               && a.value.credentialId !in s.passkeysByCredentialId && q.passkeyId !in s.passkeysById.entries)
      && (r.Finished? ==>
            && r.value == q.passkeyId
            && var a := verify(store[q.id].challenge).value;
               && t.passkeysByCredentialId == s.passkeysByCredentialId[a.credentialId := q.passkeyId]
               && q.passkeyId in t.passkeysById.entries
               && t.passkeysById.entries[q.passkeyId].signCount == a.signCount
               && t.passkeysById.entries[q.passkeyId].revokedAt == None)
      && (r == Refused(InvalidSession) <==> q.responseOk && q.withinLimits && !admitted)
  {
    hide Inv, RegisterPasskey, ValidateSession, StoreAccepts;
    ValidateOutcome(s, q.sessionVerifier, q.now);
    if q.id in store {
      var a := verify(store[q.id].challenge);
      if a.Some? { RegisterOutcome(s, q.sessionVerifier, q.now, PasskeyInputOf(q, a.value)); }
    }
  }

  method FinishRegistration(
      store: CeremonyStore, repository: LocalAuthRepository, request: RegistrationRequest, verify: RegistrationCheck)
    returns (r: Outcome<PasskeyId>)
    requires repository.Valid()
    modifies store, repository
    ensures repository.Valid()
    ensures (store.entries, repository.State(), r)
      == FinishRegistering(old(store.entries), old(repository.State()), request, verify)
  {
    if !request.responseOk { return Refused(InvalidPasskey); }
    if !request.withinLimits { return Refused(InvalidPasskey); }
    var principal := repository.ValidateSession(request.sessionVerifier, request.now);
    if principal.None? { return Refused(InvalidSession); }
    var taken := store.Take(request.id);
    if taken.Unavailable? { return Refused(ServiceUnavailable); }
    if taken.Missing? || !taken.ceremony.Registration? { return Refused(InvalidPasskey); }
    var ceremony := taken.ceremony;
    if || ceremony.accountId != principal.value.userId || ceremony.sessionVerifier != request.sessionVerifier
       || ceremony.context != request.context
    {
      return Refused(InvalidPasskey);
    }
    var verified := verify(ceremony.challenge);
    if verified.None? || !verified.value.userVerified { return Refused(InvalidPasskey); }
    PrincipalIsSessionAccount(repository.State(), request.sessionVerifier, request.now);
    var registered := repository.RegisterPasskey(request.sessionVerifier, request.now,
      PasskeyInputOf(request, verified.value));
    if registered.Thrown? { return Refused(InvalidPasskey); }
    r := Finished(request.passkeyId);
  }

  lemma PrincipalIsSessionAccount(s: Repo, v: Verifier, now: Time)
    requires Inv(s) && ValidateSession(s, v, now).Some?
    ensures ValidateSession(s, v, now).value.userId == s.sessions.entries[v].accountId
  {
  }
}
