/**
 * The records of the authentication repository and, for every operation, the state and the answer
 * it leads to. The operations are given in closed form (sets and comprehensions where the program
 * loops); class LocalAuthRepository is the program itself and is proved to agree with them.
 *
 * Identifiers, e-mail addresses and verifiers are only ever compared for equality, so they are
 * numbers here. An index whose values are shared records (accountsByEmail, passkeysByCredentialId)
 * holds the identifier of the record it points to.
 */
module AuthState {
  import opened Collections

  type UserId = nat
  type Email = nat
  type BootstrapId = nat
  type ChallengeId = nat
  type CodeVerifier = nat
  type CredentialId = nat
  type PasskeyId = nat
  type SessionId = nat
  type Verifier = nat
  type Text = nat
  /** Milliseconds. */
  type Time = int

  datatype Grant = Warrior | PlatformAdministrator | Chronicler | Editor | TechnicalAdministrator
  datatype Status = Active | Deactivated
  datatype RepositoryError = Authorization | Conflict | NotFound
  datatype Result<+T> = Ok(value: T) | Thrown(error: RepositoryError)

  datatype Account = Account(
    userId: UserId,
    email: Email,
    displayName: Text,
    domainStatus: Text,
    grants: seq<Grant>,
    isServerOwner: bool,
    status: Status)

  datatype ChallengeInput = ChallengeInput(
    challengeId: ChallengeId,
    codeVerifier: CodeVerifier,
    issuedAt: Time,
    expiresAt: Time,
    maxAttempts: nat)

  datatype Challenge = Challenge(
    input: ChallengeInput,
    accountId: UserId,
    attempts: nat,
    invalidatedAt: Option<Time>,
    usedAt: Option<Time>)
  {
    predicate Open() {
      invalidatedAt.None? && usedAt.None?
    }
  }

  datatype SessionInput = SessionInput(
    tokenVerifier: Verifier,
    sessionId: SessionId,
    issuedAt: Time,
    absoluteExpiresAt: Time,
    idleLifetime: int)

  datatype Session = Session(
    input: SessionInput,
    accountId: UserId,
    lastSeenAt: Time,
    idleExpiresAt: Time,
    revokedAt: Option<Time>,
    source: Option<Verifier>)
  {
    predicate Live() {
      revokedAt.None?
    }

    predicate ExpiredAt(now: Time) {
      now >= input.absoluteExpiresAt || now >= idleExpiresAt
    }

    function Touched(now: Time): Session {
      this.(lastSeenAt := now, idleExpiresAt := Min(input.absoluteExpiresAt, now + input.idleLifetime))
    }
  }

  datatype Backup = Backup(eligible: bool, state: bool)

  datatype Passkey = Passkey(
    passkeyId: PasskeyId,
    accountId: UserId,
    credentialId: CredentialId,
    attestation: Text,
    createdAt: Time,
    registeredBackup: Backup,
    lastBackup: Backup,
    lastUsedAt: Option<Time>,
    signCount: nat,
    revokedAt: Option<Time>)
  {
    predicate Live() {
      revokedAt.None?
    }
  }

  type Accounts = map<UserId, Account>
  type Sessions = OrderedMap<Verifier, Session>
  type Challenges = OrderedMap<ChallengeId, Challenge>
  type Passkeys = OrderedMap<PasskeyId, Passkey>

  datatype Repo = Repo(
    accountsByEmail: map<Email, UserId>,
    accountsById: Accounts,
    bootstrapAccounts: map<BootstrapId, UserId>,
    challenges: Challenges,
    latestChallengeAt: map<UserId, Time>,
    passkeysByCredentialId: map<CredentialId, PasskeyId>,
    passkeysById: Passkeys,
    sessions: Sessions)

  const EMPTY: Repo :=
    Repo(map[], map[], map[], OrderedMap([], map[]), map[], map[], OrderedMap([], map[]), OrderedMap([], map[]))

  datatype Principal = Principal(
    userId: UserId,
    sessionId: SessionId,
    domainStatus: Text,
    grants: seq<Grant>,
    isServerOwner: bool,
    canManageAccounts: bool,
    canReadDiagnostics: bool)

  function SessionPrincipal(account: Account, session: Session): Principal {
    Principal(
      account.userId, session.input.sessionId, account.domainStatus, account.grants, account.isServerOwner,
      PlatformAdministrator in account.grants, TechnicalAdministrator in account.grants)
  }

  /** The account as callers see it: the owner flag is not part of the published record. */
  datatype AccountRecord = AccountRecord(
    userId: UserId, email: Email, displayName: Text, domainStatus: Text, grants: seq<Grant>, status: Status)

  function CloneAccount(a: Account): AccountRecord {
    AccountRecord(a.userId, a.email, a.displayName, a.domainStatus, a.grants, a.status)
  }

  datatype ResetCounts = ResetCounts(challenges: nat, sessions: nat, passkeys: nat)
  datatype SignCountStatus = Advanced | NotAdvanced | NotSupported | Regressed
  datatype Login = Login(accountId: UserId, sessionId: SessionId, signCountStatus: SignCountStatus)
  datatype Issue = Issued(challengeId: ChallengeId, recipient: Email) | Neutral
  datatype Verification = Authenticated(principal: Principal) | Invalid
  datatype Bootstrapped = Bootstrapped(account: AccountRecord, created: bool)
  datatype Credential = Credential(passkeyId: PasskeyId, accountId: UserId, credentialId: CredentialId, signCount: nat)

  // ---- What belongs to an account ----

  predicate ActiveAccount(s: Repo, u: UserId) {
    u in s.accountsById && s.accountsById[u].status.Active?
  }

  function LiveSessions(sessions: Sessions, u: UserId): set<Verifier> {
    set v | v in sessions.entries && sessions.entries[v].accountId == u && sessions.entries[v].Live()
  }

  function OpenChallenges(challenges: Challenges, u: UserId): set<ChallengeId> {
    set c | c in challenges.entries && challenges.entries[c].accountId == u && challenges.entries[c].Open()
  }

  function LivePasskeys(passkeys: Passkeys, u: UserId): set<PasskeyId> {
    set p | p in passkeys.entries && passkeys.entries[p].accountId == u && passkeys.entries[p].Live()
  }

  function RevokeSessions(sessions: Sessions, chosen: set<Verifier>, now: Time): Sessions {
    sessions.(entries := map v | v in sessions.entries ::
      if v in chosen then sessions.entries[v].(revokedAt := Some(now)) else sessions.entries[v])
  }

  function InvalidateChallenges(challenges: Challenges, chosen: set<ChallengeId>, now: Time): Challenges {
    challenges.(entries := map c | c in challenges.entries ::
      if c in chosen then challenges.entries[c].(invalidatedAt := Some(now)) else challenges.entries[c])
  }

  function RevokePasskeys(passkeys: Passkeys, chosen: set<PasskeyId>, now: Time): Passkeys {
    passkeys.(entries := map p | p in passkeys.entries ::
      if p in chosen then passkeys.entries[p].(revokedAt := Some(now)) else passkeys.entries[p])
  }

  // One round of each loop, when the chosen records are visited in order.

  lemma RevokeOneMore(sessions: Sessions, done: set<Verifier>, v: Verifier, now: Time)
    requires v in sessions.entries && v !in done
    ensures RevokeSessions(sessions, done, now).Set(v, sessions.entries[v].(revokedAt := Some(now)))
      == RevokeSessions(sessions, done + {v}, now)
    ensures RevokeSessions(sessions, done, now).order == sessions.order
      && v in RevokeSessions(sessions, done, now).entries
    ensures RevokeSessions(sessions, done, now).entries[v] == sessions.entries[v]
  {
  }

  lemma RevokeEnds(sessions: Sessions, chosen: set<Verifier>, now: Time)
    requires sessions.Valid() && chosen <= sessions.entries.Keys
    ensures RevokeSessions(sessions, Seen(chosen, sessions.order, 0), now) == sessions
      && |Seen(chosen, sessions.order, 0)| == 0
    ensures Seen(chosen, sessions.order, |sessions.order|) == chosen
  {
    assert Seen(chosen, sessions.order, 0) == {};
    SeenAll(chosen, sessions.order);
  }

  lemma RevokeVisit(sessions: Sessions, chosen: set<Verifier>, i: nat, now: Time)
    requires sessions.Valid() && i < |sessions.order|
    ensures
      var v := sessions.order[i];
      var soFar := RevokeSessions(sessions, Seen(chosen, sessions.order, i), now);
      var next := RevokeSessions(sessions, Seen(chosen, sessions.order, i + 1), now);
      && v in soFar.entries && v in sessions.entries && soFar.entries[v] == sessions.entries[v]
      && next.order == sessions.order
      && next == (if v in chosen then soFar.Set(v, sessions.entries[v].(revokedAt := Some(now))) else soFar)
      && |Seen(chosen, sessions.order, i + 1)| == |Seen(chosen, sessions.order, i)| + if v in chosen then 1 else 0
  {
    SeenStep(chosen, sessions.order, i);
    assert sessions.order[i] in sessions.entries;
    hide RevokeSessions, Seen;
    RevokeOneMore(sessions, Seen(chosen, sessions.order, i), sessions.order[i], now);
    assert Seen(chosen, sessions.order, i) + {} == Seen(chosen, sessions.order, i);
  }

  lemma InvalidateOneMore(challenges: Challenges, done: set<ChallengeId>, c: ChallengeId, now: Time)
    requires c in challenges.entries && c !in done
    ensures InvalidateChallenges(challenges, done, now).Set(c, challenges.entries[c].(invalidatedAt := Some(now)))
         == InvalidateChallenges(challenges, done + {c}, now)
    ensures InvalidateChallenges(challenges, done, now).order == challenges.order
      && c in InvalidateChallenges(challenges, done, now).entries
    ensures InvalidateChallenges(challenges, done, now).entries[c] == challenges.entries[c]
  {
  }

  lemma InvalidateEnds(challenges: Challenges, chosen: set<ChallengeId>, now: Time)
    requires challenges.Valid() && chosen <= challenges.entries.Keys
    ensures InvalidateChallenges(challenges, Seen(chosen, challenges.order, 0), now) == challenges
      && |Seen(chosen, challenges.order, 0)| == 0
    ensures Seen(chosen, challenges.order, |challenges.order|) == chosen
  {
    assert Seen(chosen, challenges.order, 0) == {};
    SeenAll(chosen, challenges.order);
  }

  lemma OpenIsKnown(challenges: Challenges, u: UserId)
    ensures OpenChallenges(challenges, u) <= challenges.entries.Keys
    ensures forall c :: c in challenges.entries ==>
      (c in OpenChallenges(challenges, u) <==>
        challenges.entries[c].accountId == u && challenges.entries[c].Open())
  {
  }

  lemma InvalidateVisit(challenges: Challenges, chosen: set<ChallengeId>, i: nat, now: Time)
    requires challenges.Valid() && i < |challenges.order|
    ensures
      var c := challenges.order[i];
      var soFar := InvalidateChallenges(challenges, Seen(chosen, challenges.order, i), now);
      var next := InvalidateChallenges(challenges, Seen(chosen, challenges.order, i + 1), now);
      && c in soFar.entries && c in challenges.entries && soFar.entries[c] == challenges.entries[c]
      && next.order == challenges.order
      && next == (if c in chosen then soFar.Set(c, challenges.entries[c].(invalidatedAt := Some(now))) else soFar)
      && |Seen(chosen, challenges.order, i + 1)| == |Seen(chosen, challenges.order, i)| + if c in chosen then 1 else 0
  {
    SeenStep(chosen, challenges.order, i);
    assert challenges.order[i] in challenges.entries;
    hide InvalidateChallenges, Seen;
    InvalidateOneMore(challenges, Seen(chosen, challenges.order, i), challenges.order[i], now);
    assert Seen(chosen, challenges.order, i) + {} == Seen(chosen, challenges.order, i);
  }

  lemma RevokePasskeyOneMore(passkeys: Passkeys, done: set<PasskeyId>, p: PasskeyId, now: Time)
    requires p in passkeys.entries && p !in done
    ensures RevokePasskeys(passkeys, done, now).Set(p, passkeys.entries[p].(revokedAt := Some(now)))
      == RevokePasskeys(passkeys, done + {p}, now)
    ensures RevokePasskeys(passkeys, done, now).order == passkeys.order
      && p in RevokePasskeys(passkeys, done, now).entries
    ensures RevokePasskeys(passkeys, done, now).entries[p] == passkeys.entries[p]
  {
  }

  lemma RevokePasskeyEnds(passkeys: Passkeys, chosen: set<PasskeyId>, now: Time)
    requires passkeys.Valid() && chosen <= passkeys.entries.Keys
    ensures RevokePasskeys(passkeys, Seen(chosen, passkeys.order, 0), now) == passkeys
      && |Seen(chosen, passkeys.order, 0)| == 0
    ensures Seen(chosen, passkeys.order, |passkeys.order|) == chosen
  {
    assert Seen(chosen, passkeys.order, 0) == {};
    SeenAll(chosen, passkeys.order);
  }

  lemma RevokePasskeyVisit(passkeys: Passkeys, chosen: set<PasskeyId>, i: nat, now: Time)
    requires passkeys.Valid() && i < |passkeys.order|
    ensures
      var p := passkeys.order[i];
      var soFar := RevokePasskeys(passkeys, Seen(chosen, passkeys.order, i), now);
      var next := RevokePasskeys(passkeys, Seen(chosen, passkeys.order, i + 1), now);
      && p in soFar.entries && p in passkeys.entries && soFar.entries[p] == passkeys.entries[p]
      && next.order == passkeys.order
      && next == (if p in chosen then soFar.Set(p, passkeys.entries[p].(revokedAt := Some(now))) else soFar)
      && |Seen(chosen, passkeys.order, i + 1)| == |Seen(chosen, passkeys.order, i)| + if p in chosen then 1 else 0
  {
    SeenStep(chosen, passkeys.order, i);
    assert passkeys.order[i] in passkeys.entries;
    hide RevokePasskeys, Seen;
    RevokePasskeyOneMore(passkeys, Seen(chosen, passkeys.order, i), passkeys.order[i], now);
    assert Seen(chosen, passkeys.order, i) + {} == Seen(chosen, passkeys.order, i);
  }

  /** Everything an account could still authenticate with is closed at once. */
  function CloseAccess(s: Repo, u: UserId, now: Time): Repo {
    s.(sessions := RevokeSessions(s.sessions, LiveSessions(s.sessions, u), now),
       challenges := InvalidateChallenges(s.challenges, OpenChallenges(s.challenges, u), now),
       passkeysById := RevokePasskeys(s.passkeysById, LivePasskeys(s.passkeysById, u), now))
  }

  function PutSession(s: Repo, session: Session): Repo {
    s.(sessions := s.sessions.Set(session.input.tokenVerifier, session))
  }

  function PutAccount(s: Repo, u: UserId, a: Account): Repo {
    s.(accountsById := s.accountsById[u := a])
  }

  predicate SessionIdTaken(s: Repo, id: SessionId) {
    exists v :: v in s.sessions.entries && s.sessions.entries[v].input.sessionId == id
  }

  predicate SourceTaken(s: Repo, source: Verifier) {
    exists v :: v in s.sessions.entries && s.sessions.entries[v].source == Some(source)
  }

  /** Whether the session may act at `now` without changing anything. */
  predicate Acceptable(s: Repo, v: Verifier, now: Time) {
    && v in s.sessions.entries
    && s.sessions.entries[v].Live()
    && !s.sessions.entries[v].ExpiredAt(now)
    && ActiveAccount(s, s.sessions.entries[v].accountId)
  }

  // ---- Sessions ----

  function AuthenticateSession(s: Repo, v: Verifier, now: Time): (Repo, Option<Principal>) {
    if v !in s.sessions.entries || !s.sessions.entries[v].Live() then (s, None)
    else if !Acceptable(s, v, now) then (s.(sessions := RevokeSessions(s.sessions, {v}, now)), None)
    else
      var session := s.sessions.entries[v].Touched(now);
      (s.(sessions := s.sessions.Set(v, session)), Some(SessionPrincipal(s.accountsById[session.accountId], session)))
  }

  function ValidateSession(s: Repo, v: Verifier, now: Time): Option<Principal> {
    if !Acceptable(s, v, now) || now < s.sessions.entries[v].input.issuedAt then None
    else Some(SessionPrincipal(s.accountsById[s.sessions.entries[v].accountId], s.sessions.entries[v]))
  }

  /** A session recorded by its issuer: its idle clock starts at issue. */
  function NewSession(input: SessionInput, u: UserId, source: Option<Verifier>): Session {
    Session(input, u, input.issuedAt, Min(input.absoluteExpiresAt, input.issuedAt + input.idleLifetime), None, source)
  }

  function CreateOidcSession(s: Repo, u: UserId, source: Verifier, input: SessionInput): (Repo, Result<bool>) {
    if !ActiveAccount(s, u) || SourceTaken(s, source) then (s, Ok(false))
    else if input.tokenVerifier in s.sessions.entries || SessionIdTaken(s, input.sessionId) then (s, Thrown(Conflict))
    else (PutSession(s, NewSession(input, u, Some(source))), Ok(true))
  }

  function RevokeSessionByVerifier(s: Repo, v: Verifier, now: Time): (Repo, bool) {
    if v !in s.sessions.entries || !s.sessions.entries[v].Live() then (s, false)
    else (s.(sessions := RevokeSessions(s.sessions, {v}, now)), true)
  }

  // ---- E-mail challenges ----

  function IssueEmailChallenge(s: Repo, email: Email, input: ChallengeInput, cooldown: int): (Repo, Issue) {
    if email !in s.accountsByEmail || !ActiveAccount(s, s.accountsByEmail[email]) then (s, Neutral)
    else
      var u := s.accountsByEmail[email];
      if u in s.latestChallengeAt && input.issuedAt - s.latestChallengeAt[u] < cooldown then (s, Neutral)
      else
        var closed := InvalidateChallenges(s.challenges, OpenChallenges(s.challenges, u), input.issuedAt);
        (s.(challenges := closed.Set(input.challengeId, Challenge(input, u, 0, None, None)),
            latestChallengeAt := s.latestChallengeAt[u := input.issuedAt]),
         Issued(input.challengeId, s.accountsById[u].email))
  }

  function InvalidateChallenge(s: Repo, c: ChallengeId, now: Time): Repo {
    if c in s.challenges.entries && s.challenges.entries[c].usedAt.None? then
      s.(challenges := InvalidateChallenges(s.challenges, {c}, now))
    else s
  }

  /** Whether a code presented now is compared with the challenge at all. */
  predicate Answerable(s: Repo, c: ChallengeId, now: Time) {
    && c in s.challenges.entries
    && s.challenges.entries[c].Open()
    && now < s.challenges.entries[c].input.expiresAt
    && s.challenges.entries[c].attempts < s.challenges.entries[c].input.maxAttempts
  }

  function CountWrongCode(s: Repo, c: ChallengeId): Repo
    requires c in s.challenges.entries
  {
    s.(challenges := s.challenges.Set(c, s.challenges.entries[c].(attempts := s.challenges.entries[c].attempts + 1)))
  }

  function SpendChallenge(s: Repo, c: ChallengeId, now: Time, session: Session): Repo
    requires c in s.challenges.entries
  {
    PutSession(s.(challenges := s.challenges.Set(c, s.challenges.entries[c].(usedAt := Some(now)))), session)
  }

  function ConsumeChallenge(s: Repo, c: ChallengeId, candidate: CodeVerifier, now: Time, input: SessionInput)
    : (Repo, Result<Verification>)
  {
    if !Answerable(s, c, now) then (s, Ok(Invalid))
    else
      var challenge := s.challenges.entries[c];
      var u := challenge.accountId;
      if challenge.input.codeVerifier != candidate then (CountWrongCode(s, c), Ok(Invalid))
      else if !ActiveAccount(s, u) then
        (s.(challenges := InvalidateChallenges(s.challenges, {c}, now)), Ok(Invalid))
      else if input.tokenVerifier in s.sessions.entries then (s, Thrown(Conflict))
      else
        var session := NewSession(input, u, None);
        (SpendChallenge(s, c, now, session), Ok(Authenticated(SessionPrincipal(s.accountsById[u], session))))
  }

  // ---- Passkeys ----

  datatype PasskeyInput = PasskeyInput(
    passkeyId: PasskeyId, credentialId: CredentialId, attestation: Text, backup: Backup, signCount: nat,
    userVerified: bool)

  function RegisterPasskey(s: Repo, actor: Verifier, now: Time, input: PasskeyInput): (Repo, Result<UserId>) {
    if ValidateSession(s, actor, now).None? || !input.userVerified then (s, Thrown(Authorization))
    else if input.credentialId in s.passkeysByCredentialId || input.passkeyId in s.passkeysById.entries then
      (s, Thrown(Conflict))
    else
      var u := s.sessions.entries[actor].accountId;
      var passkey := Passkey(input.passkeyId, u, input.credentialId, input.attestation, now,
                             input.backup, input.backup, None, input.signCount, None);
      (s.(passkeysByCredentialId := s.passkeysByCredentialId[input.credentialId := input.passkeyId],
          passkeysById := s.passkeysById.Set(input.passkeyId, passkey)),
       Ok(u))
  }

  /** The unrevoked passkey of an active account that the credential names. */
  function UsablePasskey(s: Repo, credential: CredentialId): Option<Passkey> {
    if credential !in s.passkeysByCredentialId then None
    else
      var p := s.passkeysByCredentialId[credential];
      if && p in s.passkeysById.entries && s.passkeysById.entries[p].Live()
         && ActiveAccount(s, s.passkeysById.entries[p].accountId)
      then Some(s.passkeysById.entries[p])
      else None
  }

  function ReadPasskey(s: Repo, credential: CredentialId, now: Time): Option<Credential> {
    match UsablePasskey(s, credential)
    case None => None
    case Some(p) =>
      if now < p.createdAt then None else Some(Credential(p.passkeyId, p.accountId, p.credentialId, p.signCount))
  }

  function CounterStatus(stored: nat, observed: nat): SignCountStatus {
    if stored == 0 && observed == 0 then NotSupported
    else if observed > stored then Advanced
    else if observed == stored then NotAdvanced
    else Regressed
  }

  datatype LoginInput = LoginInput(
    credentialId: CredentialId, expectedSignCount: nat, observedSignCount: nat, backup: Backup, userVerified: bool,
    session: SessionInput)

  function RecordUse(s: Repo, p: Passkey, now: Time, input: LoginInput): Repo {
    s.(passkeysById := s.passkeysById.Set(p.passkeyId,
         p.(signCount := Max(p.signCount, input.observedSignCount), lastBackup := input.backup,
           lastUsedAt := Some(now))))
  }

  /** A session opened by a passkey login: its idle clock starts at the login. */
  function LoginSession(u: UserId, now: Time, input: SessionInput): Session {
    Session(input, u, now, Min(input.absoluteExpiresAt, now + input.idleLifetime), None, None)
  }

  function CompletePasskeyLogin(s: Repo, now: Time, input: LoginInput): (Repo, Result<Option<Login>>) {
    match UsablePasskey(s, input.credentialId)
    case None => (s, Ok(None))
    case Some(p) =>
      if !input.userVerified then (s, Ok(None))
      else if p.signCount != input.expectedSignCount then (s, Thrown(Conflict))
      else if input.session.tokenVerifier in s.sessions.entries || SessionIdTaken(s, input.session.sessionId) then
        (s, Thrown(Conflict))
      else
        (PutSession(RecordUse(s, p, now, input), LoginSession(p.accountId, now, input.session)),
         Ok(Some(Login(p.accountId, input.session.sessionId, CounterStatus(p.signCount, input.observedSignCount)))))
  }

  // ---- Administration ----

  /** The state after the acting session has been checked and its idle clock renewed. */
  function RequireAdministrator(s: Repo, actor: Verifier, now: Time): Option<Repo> {
    if ValidateSession(s, actor, now).None? then None
    else
      var session := s.sessions.entries[actor];
      if PlatformAdministrator !in s.accountsById[session.accountId].grants then None
      else Some(s.(sessions := s.sessions.Set(actor, session.Touched(now))))
  }

  predicate OwnerActs(s: Repo, actor: Verifier) {
    && actor in s.sessions.entries
    && s.sessions.entries[actor].accountId in s.accountsById
    && s.accountsById[s.sessions.entries[actor].accountId].isServerOwner
  }

  function Bootstrap(s: Repo, id: BootstrapId, u: UserId, email: Email, name: Text): (Repo, Result<Bootstrapped>) {
    if id in s.bootstrapAccounts then
      var b := s.bootstrapAccounts[id];
      if b !in s.accountsById || b != u || s.accountsById[b].email != email then (s, Thrown(Conflict))
      else (s, Ok(Bootstrapped(CloneAccount(s.accountsById[b]), false)))
    else if u in s.accountsById || email in s.accountsByEmail then (s, Thrown(Conflict))
    else if s.accountsById != map[] && s.bootstrapAccounts != map[] then (s, Thrown(Conflict))
    else
      var account := Account(u, email, name, INCUBATOR_PARTICIPANT, [PlatformAdministrator], true, Active);
      (s.(accountsByEmail := s.accountsByEmail[email := u],
          accountsById := s.accountsById[u := account],
          bootstrapAccounts := s.bootstrapAccounts[id := u]),
       Ok(Bootstrapped(CloneAccount(account), true)))
  }

  const INCUBATOR_PARTICIPANT: Text := 0

  datatype Administration =
    | SecurityReset(accountId: UserId)
    | CreateAccount(userId: UserId, email: Email, displayName: Text)
    | GiveGrant(userId: UserId, grant: Grant)
    | TakeGrant(userId: UserId, grant: Grant)
    | RevokeAllSessions(userId: UserId)
    | RevokeSession(userId: UserId, sessionId: SessionId)
    | SetStatus(userId: UserId, status: Status)
    | SetDomainStatus(userId: UserId, domainStatus: Text)
    | UpdateAccount(userId: UserId, email: Email, displayName: Text)

  datatype AdminReply =
    | AccountReply(account: AccountRecord)
    | CountReply(count: nat)
    | FlagReply(flag: bool)
    | ResetReply(counts: ResetCounts)

  /** The first session, in the order they were created, that revoking by session identifier finds. */
  function FirstLiveSession(sessions: Sessions, order: seq<Verifier>, u: UserId, id: SessionId): (r: Option<Verifier>)
    ensures r.Some? ==>
      r.value in order && r.value in LiveSessions(sessions, u) && sessions.entries[r.value].input.sessionId == id
    ensures r.None? ==> forall v :: v in order && v in LiveSessions(sessions, u) ==>
      sessions.entries[v].input.sessionId != id
  {
    if order == [] then None
    else if order[0] in LiveSessions(sessions, u)
      && sessions.entries[order[0]].input.sessionId == id then Some(order[0])
    else FirstLiveSession(sessions, order[1..], u, id)
  }

  function WithoutGrant(grants: seq<Grant>, g: Grant): (r: seq<Grant>)
    ensures forall x :: x in r <==> x in grants && x != g
  {
    if grants == [] then []
    else if grants[0] == g then WithoutGrant(grants[1..], g)
    else [grants[0]] + WithoutGrant(grants[1..], g)
  }

  type AdminResult = (Repo, Result<AdminReply>)

  function ResetAccess(s: Repo, u: UserId, now: Time): AdminResult {
    if u !in s.accountsById then (s, Thrown(NotFound))
    else (CloseAccess(s, u, now),
          Ok(ResetReply(ResetCounts(
            |OpenChallenges(s.challenges, u)|, |LiveSessions(s.sessions, u)|, |LivePasskeys(s.passkeysById, u)|))))
  }

  function AddAccount(s: Repo, u: UserId, email: Email, name: Text): AdminResult {
    if u in s.accountsById || email in s.accountsByEmail then (s, Thrown(Conflict))
    else
      var account := Account(u, email, name, INCUBATOR_PARTICIPANT, [], false, Active);
      (PutAccount(s, u, account).(accountsByEmail := s.accountsByEmail[email := u]),
        Ok(AccountReply(CloneAccount(account))))
  }

  /** The account after a change that only concerns the account itself. */
  function ReplaceAccount(s: Repo, u: UserId, account: Account): AdminResult {
    (PutAccount(s, u, account), Ok(AccountReply(CloneAccount(account))))
  }

  function AddGrant(s: Repo, actorIsOwner: bool, u: UserId, g: Grant): AdminResult {
    if g.PlatformAdministrator? && !actorIsOwner then (s, Thrown(Authorization))
    else if u !in s.accountsById then (s, Thrown(NotFound))
    else
      var a := s.accountsById[u];
      ReplaceAccount(s, u, if g in a.grants then a else a.(grants := a.grants + [g]))
  }

  function RemoveGrant(s: Repo, actorIsOwner: bool, u: UserId, g: Grant): AdminResult {
    if g.PlatformAdministrator? && !actorIsOwner then (s, Thrown(Authorization))
    else if u !in s.accountsById then (s, Thrown(NotFound))
    else
      var a := s.accountsById[u];
      if g.PlatformAdministrator? && a.isServerOwner then (s, Thrown(Conflict))
      else ReplaceAccount(s, u, a.(grants := WithoutGrant(a.grants, g)))
  }

  function RevokeAll(s: Repo, u: UserId, now: Time): AdminResult {
    if u !in s.accountsById then (s, Thrown(NotFound))
    else (s.(sessions := RevokeSessions(s.sessions, LiveSessions(s.sessions, u), now)),
          Ok(CountReply(|LiveSessions(s.sessions, u)|)))
  }

  function RevokeOne(s: Repo, u: UserId, id: SessionId, now: Time): AdminResult {
    if u !in s.accountsById then (s, Thrown(NotFound))
    else
      var found := FirstLiveSession(s.sessions, s.sessions.order, u, id);
      if found.None? then (s, Ok(FlagReply(false)))
      else (s.(sessions := RevokeSessions(s.sessions, {found.value}, now)), Ok(FlagReply(true)))
  }

  function ChangeStatus(s: Repo, u: UserId, status: Status, now: Time): AdminResult {
    if u !in s.accountsById then (s, Thrown(NotFound))
    else
      var account := s.accountsById[u].(status := status);
      var t := PutAccount(s, u, account);
      (if status.Deactivated? then CloseAccess(t, u, now) else t, Ok(AccountReply(CloneAccount(account))))
  }

  function ChangeDomainStatus(s: Repo, u: UserId, domainStatus: Text): AdminResult {
    if u !in s.accountsById then (s, Thrown(NotFound))
    else ReplaceAccount(s, u, s.accountsById[u].(domainStatus := domainStatus))
  }

  function ChangeProfile(s: Repo, u: UserId, email: Email, name: Text): AdminResult {
    if u !in s.accountsById then (s, Thrown(NotFound))
    else if email in s.accountsByEmail && s.accountsByEmail[email] != u then (s, Thrown(Conflict))
    else
      var account := s.accountsById[u].(email := email, displayName := name);
      (PutAccount(s, u, account).(accountsByEmail := (s.accountsByEmail - {s.accountsById[u].email})[email := u]),
       Ok(AccountReply(CloneAccount(account))))
  }

  /** What an administrator's request does once the administrator has been accepted. */
  function Administer(s: Repo, actorIsOwner: bool, request: Administration, now: Time): AdminResult {
    match request
    case SecurityReset(u) => ResetAccess(s, u, now)
    case CreateAccount(u, email, name) => AddAccount(s, u, email, name)
    case GiveGrant(u, g) => AddGrant(s, actorIsOwner, u, g)
    case TakeGrant(u, g) => RemoveGrant(s, actorIsOwner, u, g)
    case RevokeAllSessions(u) => RevokeAll(s, u, now)
    case RevokeSession(u, id) => RevokeOne(s, u, id, now)
    case SetStatus(u, status) => ChangeStatus(s, u, status, now)
    case SetDomainStatus(u, domain) => ChangeDomainStatus(s, u, domain)
    case UpdateAccount(u, email, name) => ChangeProfile(s, u, email, name)
  }

  function AsAdministrator(s: Repo, actor: Verifier, now: Time, request: Administration): AdminResult {
    match RequireAdministrator(s, actor, now)
    case None => (s, Thrown(Authorization))
    case Some(t) => Administer(t, OwnerActs(s, actor), request, now)
  }

  // ---- Runs ----

  datatype Op =
    | OpAuthenticate(v: Verifier, now: Time)
    | OpCreateOidc(u: UserId, source: Verifier, session: SessionInput)
    | OpRevokeByVerifier(v: Verifier, now: Time)
    | OpIssue(email: Email, challenge: ChallengeInput, cooldown: int)
    | OpInvalidate(c: ChallengeId, now: Time)
    | OpConsume(c: ChallengeId, candidate: CodeVerifier, now: Time, session: SessionInput)
    | OpRegister(v: Verifier, now: Time, passkey: PasskeyInput)
    | OpLogin(now: Time, login: LoginInput)
    | OpBootstrap(id: BootstrapId, u: UserId, email: Email, name: Text)
    | OpAdmin(v: Verifier, now: Time, request: Administration)

  /** One operation of the repository; the three that only read leave the state alone and are not listed. */
  function Step(s: Repo, op: Op): Repo {
    match op
    case OpAuthenticate(v, now) => AuthenticateSession(s, v, now).0
    case OpCreateOidc(u, source, session) => CreateOidcSession(s, u, source, session).0
    case OpRevokeByVerifier(v, now) => RevokeSessionByVerifier(s, v, now).0
    case OpIssue(email, challenge, cooldown) => IssueEmailChallenge(s, email, challenge, cooldown).0
    case OpInvalidate(c, now) => InvalidateChallenge(s, c, now)
    case OpConsume(c, candidate, now, session) => ConsumeChallenge(s, c, candidate, now, session).0
    case OpRegister(v, now, passkey) => RegisterPasskey(s, v, now, passkey).0
    case OpLogin(now, login) => CompletePasskeyLogin(s, now, login).0
    case OpBootstrap(id, u, email, name) => Bootstrap(s, id, u, email, name).0
    case OpAdmin(v, now, request) => AsAdministrator(s, v, now, request).0
  }

  function Run(s: Repo, ops: seq<Op>): Repo
    decreases ops
  {
    if ops == [] then s else Run(Step(s, ops[0]), ops[1..])
  }
}
