/** The authentication service in front of the repository and the limiter: e-mail challenges and new sessions. */
module AuthService {
  import opened Collections
  import opened AuthState
  import opened AuthInvariant
  import opened LocalRepository
  import opened LimitLoops
  import opened AuthOutcomes
  import AuthAccess
  import AuthRuns
  import Limits = RateLimiters

  datatype Policy = Policy(
    maxAttempts: int, ttl: int, cooldown: int, absoluteLifetime: int, idleLifetime: int,
    challengeByEmail: Limits.Rule, challengeByFingerprint: Limits.Rule, challengeByNetwork: Limits.Rule,
    verifyByChallenge: Limits.Rule, verifyByNetwork: Limits.Rule)

  predicate RuleOk(rule: Limits.Rule) {
    rule.limit > 0 && rule.window > 0
  }

  predicate PolicyOk(p: Policy) {
    && p.maxAttempts > 0 && p.ttl > 0 && p.cooldown > 0
    && 0 < p.idleLifetime <= p.absoluteLifetime
    && RuleOk(p.challengeByEmail) && RuleOk(p.challengeByFingerprint) && RuleOk(p.challengeByNetwork)
    && RuleOk(p.verifyByChallenge) && RuleOk(p.verifyByNetwork)
  }

  /** Codes are strings; only four to nine digits are compared as given. */
  predicate IsCode(code: string) {
    4 <= |code| <= 9 && forall c :: c in code ==> '0' <= c <= '9'
  }

  /** The verifier of a code depends on the challenge it is for. */
  type CodeVerifierOf = (ChallengeId, string) -> CodeVerifier

  datatype RequestInput = RequestInput(
    email: Email, emailKey: Limits.Key, fingerprintKey: Limits.Key, networkKey: Limits.Key,
    challengeId: ChallengeId, code: string, chargedAt: Time, now: Time)

  datatype VerifyInput = VerifyInput(
    challengeId: ChallengeId, challengeKey: Limits.Key, networkKey: Limits.Key, code: string,
    token: Verifier, sessionId: SessionId, chargedAt: Time, now: Time)

  /** What the caller of a challenge request sees. */
  datatype Response = Accepted(challengeId: ChallengeId, email: Email)

  datatype Message = Message(challengeId: ChallengeId, code: string, expiresAt: Time, recipient: Email)

  datatype NewSession = NewSession(
      absoluteExpiresAt: Time, idleExpiresAt: Time, sessionId: SessionId, token: Verifier, userId: UserId)

  datatype Failure = RateLimited | InvalidChallenge | InvalidSession | RepositoryFailure(error: RepositoryError)

  datatype SessionReply = Opened(session: NewSession) | Refused(failure: Failure)

  function RequestLimits(p: Policy, r: RequestInput): seq<Limit> {
    [Limit(r.emailKey, p.challengeByEmail), Limit(r.fingerprintKey, p.challengeByFingerprint),
      Limit(r.networkKey, p.challengeByNetwork)]
  }

  function VerifyLimits(p: Policy, r: VerifyInput): seq<Limit> {
    [Limit(r.challengeKey, p.verifyByChallenge), Limit(r.networkKey, p.verifyByNetwork)]
  }

  function ChallengeFor(p: Policy, verifierOf: CodeVerifierOf, r: RequestInput): ChallengeInput
    requires PolicyOk(p)
  {
    ChallengeInput(r.challengeId, verifierOf(r.challengeId, r.code), r.now, r.now + p.ttl, p.maxAttempts)
  }

  function SessionFor(p: Policy, token: Verifier, id: SessionId, now: Time): SessionInput {
    SessionInput(token, id, now, now + p.absoluteLifetime, p.idleLifetime)
  }

  function Reply(p: Policy, token: Verifier, id: SessionId, now: Time, u: UserId): NewSession {
    NewSession(now + p.absoluteLifetime, now + Min(p.idleLifetime, p.absoluteLifetime), id, token, u)
  }

  /** A challenge request: the limiter's and the repository's new state, and the message to deliver. */
  function Request(p: Policy, verifierOf: CodeVerifierOf, attempts: Limits.Attempts, s: Repo, r: RequestInput)
    : (Limits.Attempts, Repo, Option<Message>)
    requires PolicyOk(p)
  {
    var (charged, allowed) := ChargeAll(attempts, RequestLimits(p, r), r.chargedAt);
    if !allowed then (charged, s, None)
    else
      var (t, issue) := IssueEmailChallenge(s, r.email, ChallengeFor(p, verifierOf, r), p.cooldown);
      (charged, t, if issue.Issued? then Some(Message(issue.challengeId, r.code, r.now + p.ttl, issue.recipient))
        else None)
  }

  function Verify(p: Policy, verifierOf: CodeVerifierOf, attempts: Limits.Attempts, s: Repo, r: VerifyInput)
    : (Limits.Attempts, Repo, SessionReply)
  {
    var (charged, allowed) := ChargeUntilRefused(attempts, VerifyLimits(p, r), r.chargedAt);
    if !allowed then (charged, s, Refused(RateLimited))
    else
      var candidate := verifierOf(r.challengeId, if IsCode(r.code) then r.code else "invalid");
      var (t, result) :=
        ConsumeChallenge(s, r.challengeId, candidate, r.now, SessionFor(p, r.token, r.sessionId, r.now));
      (charged, t,
       match result
       case Thrown(error) => Refused(RepositoryFailure(error))
       case Ok(Invalid) => Refused(InvalidChallenge)
       case Ok(Authenticated(principal)) => Opened(Reply(p, r.token, r.sessionId, r.now, principal.userId)))
  }

  function OpenOidc(
      p: Policy, s: Repo, proofLength: nat, u: UserId, source: Verifier, token: Verifier, id: SessionId, now: Time)
    : (Repo, SessionReply)
  {
    if proofLength < 16 || proofLength > 4096 then (s, Refused(InvalidSession))
    else
      var (t, created) := CreateOidcSession(s, u, source, SessionFor(p, token, id, now));
      (t,
       match created
       case Thrown(error) => Refused(RepositoryFailure(error))
       case Ok(false) => Refused(InvalidSession)
       case Ok(true) => Opened(Reply(p, token, id, now, u)))
  }

  class AuthService {
    const repository: LocalAuthRepository
    const limiter: Limits.LocalRateLimiter
    const policy: Policy
    const verifierOf: CodeVerifierOf

    ghost predicate Valid()
      reads repository
    {
      PolicyOk(policy) && repository.Valid()
    }

    constructor (
        repository: LocalAuthRepository, limiter: Limits.LocalRateLimiter, policy: Policy, verifierOf: CodeVerifierOf)
      requires PolicyOk(policy) && repository.Valid()
      ensures Valid() && this.repository == repository && this.limiter == limiter && this.policy == policy
        && this.verifierOf == verifierOf
    {
      this.repository, this.limiter, this.policy, this.verifierOf := repository, limiter, policy, verifierOf;
    }

    /** `sent` is the message handed to the mail delivery, which runs in the background. */
    method RequestEmailChallenge(r: RequestInput) returns (response: Response, sent: Option<Message>)
      requires Valid()
      modifies repository, limiter
      ensures Valid()
      ensures response == Accepted(r.challengeId, r.email)
      ensures (limiter.attempts, repository.State(), sent)
        == Request(policy, verifierOf, old(limiter.attempts), old(repository.State()), r)
    {
      hide Inv;
      var allowed := ConsumeNeutralChallengeRateLimits(limiter, RequestLimits(policy, r), r.chargedAt);
      sent := None;
      if allowed {
        var result := repository.IssueEmailChallenge(r.email, ChallengeFor(policy, verifierOf, r), policy.cooldown);
        if result.Issued? {
          sent := Some(Message(result.challengeId, r.code, r.now + policy.ttl, result.recipient));
        }
      }
      response := Accepted(r.challengeId, r.email);
    }

    /** A message that could not be delivered in time takes its challenge back. */
    method DeliverChallenge(message: Message, issuedAt: Time, delivered: bool)
      requires Valid()
      modifies repository
      ensures Valid()
      ensures repository.State() ==
        if delivered then old(repository.State())
          else InvalidateChallenge(old(repository.State()), message.challengeId, issuedAt)
    {
      hide Inv;
      if !delivered { repository.InvalidateChallenge(message.challengeId, issuedAt); }
    }

    method VerifyEmailChallenge(r: VerifyInput) returns (reply: SessionReply)
      requires Valid()
      modifies repository, limiter
      ensures Valid()
      ensures (limiter.attempts, repository.State(), reply)
        == Verify(policy, verifierOf, old(limiter.attempts), old(repository.State()), r)
    {
      hide Inv;
      var allowed := ConsumeRateLimits(limiter, VerifyLimits(policy, r), r.chargedAt);
      if !allowed { return Refused(RateLimited); }
      var code := if IsCode(r.code) then r.code else "invalid";
      var result := repository.ConsumeChallengeAndCreateSession(
        r.challengeId, verifierOf(r.challengeId, code), r.now, SessionFor(policy, r.token, r.sessionId, r.now));
      if result.Thrown? { return Refused(RepositoryFailure(result.error)); }
      if result.value.Invalid? { return Refused(InvalidChallenge); }
      reply := Opened(Reply(policy, r.token, r.sessionId, r.now, result.value.principal.userId));
    }

    method CreateOidcSession(proofLength: nat, u: UserId, source: Verifier, token: Verifier, id: SessionId, now: Time)
      returns (reply: SessionReply)
      requires Valid()
      modifies repository
      ensures Valid()
      ensures (repository.State(), reply)
        == OpenOidc(policy, old(repository.State()), proofLength, u, source, token, id, now)
    {
      hide Inv;
      if proofLength < 16 || proofLength > 4096 { return Refused(InvalidSession); }
      var created := repository.CreateOidcSession(u, source, SessionFor(policy, token, id, now));
      if created.Thrown? { return Refused(RepositoryFailure(created.error)); }
      if !created.value { return Refused(InvalidSession); }
      reply := Opened(Reply(policy, token, id, now, u));
    }
  }

  // ---- What the service promises ----

  /** Each of the three limits of a request is charged on its own key under its own rule, and allows it. */
  ghost predicate RequestAllowed(p: Policy, attempts: Limits.Attempts, r: RequestInput) {
    && Limits.LocalConsume(attempts, r.emailKey, r.chargedAt, p.challengeByEmail).1.Allowed?
    && Limits.LocalConsume(attempts, r.fingerprintKey, r.chargedAt, p.challengeByFingerprint).1.Allowed?
    && Limits.LocalConsume(attempts, r.networkKey, r.chargedAt, p.challengeByNetwork).1.Allowed?
  }

  /** The key's attempts after the charge are those of charging it alone. */
  ghost predicate Charged(
      before: Limits.Attempts, after: Limits.Attempts, key: Limits.Key, now: Time, rule: Limits.Rule) {
    Limits.AttemptsOf(after, key) == Limits.AttemptsOf(Limits.LocalConsume(before, key, now, rule).0, key)
  }

  /**
   * A challenge request tells nobody whether the address has an account: with the same limiter, any
   * two repositories lead to the same limiter, whose three keys are charged whatever they answer. A
   * message is sent exactly when every limit allows it and an active account may be sent one now;
   * otherwise the repository stays as it was.
   */
  lemma ChallengeResponseIsNeutral(
      p: Policy, verifierOf: CodeVerifierOf, attempts: Limits.Attempts, s: Repo, t: Repo, r: RequestInput)
    requires PolicyOk(p)
    requires r.emailKey != r.fingerprintKey && r.emailKey != r.networkKey && r.fingerprintKey != r.networkKey
    ensures Request(p, verifierOf, attempts, s, r).0 == Request(p, verifierOf, attempts, t, r).0
    ensures
      var after := Request(p, verifierOf, attempts, s, r).0;
      && Charged(attempts, after, r.emailKey, r.chargedAt, p.challengeByEmail)
      && Charged(attempts, after, r.fingerprintKey, r.chargedAt, p.challengeByFingerprint)
      && Charged(attempts, after, r.networkKey, r.chargedAt, p.challengeByNetwork)
    ensures Request(p, verifierOf, attempts, s, r).2.Some?
      <==> RequestAllowed(p, attempts, r) && MayBeSent(s, r.email, r.now, p.cooldown)
    ensures Request(p, verifierOf, attempts, s, r).2.None? ==> Request(p, verifierOf, attempts, s, r).1 == s
  {
    hide ChargeAll, Limits.LocalConsume, Limits.AttemptsOf;
    var limits := RequestLimits(p, r);
    NeutralChargesEachAlone(attempts, limits, r.chargedAt);
    assert limits[0].key == r.emailKey && limits[1].key == r.fingerprintKey && limits[2].key == r.networkKey;
    assert Charge(attempts, limits[0], r.chargedAt) == Limits.LocalConsume(attempts, r.emailKey, r.chargedAt,
      p.challengeByEmail);
  }

  /**
   * The message carries what the challenge was issued for: its id is the one in the response, its
   * code the one whose verifier is stored, its expiry the challenge's, and it goes to the address of
   * the challenge's account.
   */
  lemma MessageTellsTheChallenge(
      p: Policy, verifierOf: CodeVerifierOf, attempts: Limits.Attempts, s: Repo, r: RequestInput)
    requires PolicyOk(p) && Inv(s) && Request(p, verifierOf, attempts, s, r).2.Some?
    ensures
      var (_, t, sent) := Request(p, verifierOf, attempts, s, r);
      var m := sent.value;
      && m.challengeId == r.challengeId && m.recipient == r.email && r.email in s.accountsByEmail
      && m.challengeId in t.challenges.entries
      && var challenge := t.challenges.entries[m.challengeId];
         && challenge.input.codeVerifier == verifierOf(m.challengeId, m.code)
         && challenge.input.expiresAt == m.expiresAt == r.now + p.ttl
         && challenge.input.issuedAt == r.now && challenge.input.maxAttempts == p.maxAttempts
         && challenge.attempts == 0 && challenge.usedAt == None && challenge.invalidatedAt == None
         && challenge.accountId == s.accountsByEmail[r.email]
         && t.accountsById == s.accountsById && t.sessions == s.sessions
  {
    hide Inv, ChargeAll, IssueEmailChallenge, OthersClosed;
    IssueOutcome(s, r.email, ChallengeFor(p, verifierOf, r), p.cooldown);
  }

  /** What is presented is compared as it is only if it looks like a code. */
  function Presented(verifierOf: CodeVerifierOf, v: VerifyInput): CodeVerifier {
    verifierOf(v.challengeId, if IsCode(v.code) then v.code else "invalid")
  }

  /** The reply hands out the session that was stored, under the names asked for and with the policy's bounds. */
  ghost predicate HandsOut(p: Policy, session: NewSession, t: Repo, token: Verifier, id: SessionId, now: Time) {
    && session.token == token && session.sessionId == id && token in t.sessions.entries
    && var stored := t.sessions.entries[token];
       && stored.input.tokenVerifier == session.token && stored.input.sessionId == session.sessionId
       && stored.accountId == session.userId && stored.revokedAt == None
       && stored.input.absoluteExpiresAt == session.absoluteExpiresAt == now + p.absoluteLifetime
       && stored.idleExpiresAt == session.idleExpiresAt == now + p.idleLifetime
       && stored.input.idleLifetime == p.idleLifetime && stored.lastSeenAt == now
  }

  /**
   * The answer to a presented code, for every state and code: refused by the limits, conflicting,
   * not valid, or opened, and exactly when; only a code that is compared and wrong is counted.
   */
  lemma VerifyOutcome(p: Policy, verifierOf: CodeVerifierOf, attempts: Limits.Attempts, s: Repo, v: VerifyInput)
    requires PolicyOk(p) && Inv(s)
    ensures
      var (_, t, reply) := Verify(p, verifierOf, attempts, s, v);
      if !ChargeUntilRefused(attempts, VerifyLimits(p, v), v.chargedAt).1 then t == s && reply == Refused(RateLimited)
      else if !Comparable(s, v.challengeId, v.now) then t == s && reply == Refused(InvalidChallenge)
      else
        var challenge := s.challenges.entries[v.challengeId];
        if challenge.input.codeVerifier != Presented(verifierOf, v) then
          && reply == Refused(InvalidChallenge) && OnlyChallenge(s, t, v.challengeId)
          && t.challenges.entries[v.challengeId] == challenge.(attempts := challenge.attempts + 1)
        else if !IsActive(s, challenge.accountId) then reply == Refused(InvalidChallenge)
        else if v.token in s.sessions.entries then t == s && reply == Refused(RepositoryFailure(Conflict))
        else
          && reply.Opened? && reply.session.userId == challenge.accountId
          && HandsOut(p, reply.session, t, v.token, v.sessionId, v.now)
          && t.challenges.entries[v.challengeId] == challenge.(usedAt := Some(v.now))
  {
    hide Inv, ChargeUntilRefused, ConsumeChallenge, OnlyChallenge;
    ConsumeOutcome(s, v.challengeId, Presented(verifierOf, v), v.now, SessionFor(p, v.token, v.sessionId, v.now));
  }

  /** The two limits of a presented code are the challenge's and the network's, under their own rules. */
  lemma VerifyChargesItsLimits(p: Policy, attempts: Limits.Attempts, v: VerifyInput)
    requires v.challengeKey != v.networkKey
    ensures
      var (after, allowed) := ChargeUntilRefused(attempts, VerifyLimits(p, v), v.chargedAt);
      var first := Limits.LocalConsume(attempts, v.challengeKey, v.chargedAt, p.verifyByChallenge);
      var second := Limits.LocalConsume(attempts, v.networkKey, v.chargedAt, p.verifyByNetwork);
      && (allowed <==> first.1.Allowed? && second.1.Allowed?)
      && Charged(attempts, after, v.challengeKey, v.chargedAt, p.verifyByChallenge)
      && (first.1.Allowed? ==> Charged(attempts, after, v.networkKey, v.chargedAt, p.verifyByNetwork))
      && (first.1.Limited? ==> Limits.AttemptsOf(after, v.networkKey) == Limits.AttemptsOf(attempts, v.networkKey))
  {
    hide Limits.LocalConsume, Limits.AttemptsOf;
    var limits := VerifyLimits(p, v);
    var one := Charge(attempts, limits[0], v.chargedAt);
    ChargeIsLocal(attempts, one.0, limits[0], v.chargedAt, v.networkKey);
    ChargeIsLocal(one.0, attempts, limits[1], v.chargedAt, v.challengeKey);
    var two := Charge(one.0, limits[1], v.chargedAt);
    assert limits[1..] == [limits[1]] && limits[1..][1..] == [];
    assert ChargeUntilRefused(one.0, limits[1..], v.chargedAt) == (two.0, two.1.Allowed?);
  }

  /**
   * The code in the message opens a session for the recipient's account exactly until the message's
   * expiry, when the limits allow the attempt and nothing happens in between. Whoever has the message
   * needs nothing else.
   */
  lemma SentCodeOpens(
      p: Policy, verifierOf: CodeVerifierOf, attempts: Limits.Attempts, later: Limits.Attempts, s: Repo,
      r: RequestInput, v: VerifyInput)
    requires PolicyOk(p) && Inv(s) && v.token !in s.sessions.entries
    requires
      var sent := Request(p, verifierOf, attempts, s, r).2;
      sent.Some? && IsCode(sent.value.code) && v.challengeId == sent.value.challengeId && v.code == sent.value.code
    requires ChargeUntilRefused(later, VerifyLimits(p, v), v.chargedAt).1
    ensures
      var requested := Request(p, verifierOf, attempts, s, r);
      var verified := Verify(p, verifierOf, later, requested.1, v);
      && (verified.2.Opened? <==> v.now < requested.2.value.expiresAt)
      && (verified.2.Opened? ==>
            && verified.2.session.userId in s.accountsById
            && s.accountsById[verified.2.session.userId].email == requested.2.value.recipient == r.email)
  {
    hide Inv, ChargeUntilRefused, ChargeAll, Request, Verify, HandsOut, OnlyChallenge;
    var requested := Request(p, verifierOf, attempts, s, r);
    MessageTellsTheChallenge(p, verifierOf, attempts, s, r);
    MessageNeedsAnAccount(p, verifierOf, attempts, s, r);
    RequestKeepsInv(p, verifierOf, attempts, s, r);
    EmailBasics(s, r.email);
    VerifyOutcome(p, verifierOf, later, requested.1, v);
  }

  lemma MessageNeedsAnAccount(
      p: Policy, verifierOf: CodeVerifierOf, attempts: Limits.Attempts, s: Repo, r: RequestInput)
    requires PolicyOk(p) && Inv(s) && Request(p, verifierOf, attempts, s, r).2.Some?
    ensures r.email in s.accountsByEmail && IsActive(s, s.accountsByEmail[r.email])
  {
    hide Inv, ChargeAll, IssueEmailChallenge, OthersClosed;
    IssueOutcome(s, r.email, ChallengeFor(p, verifierOf, r), p.cooldown);
  }

  lemma RequestKeepsInv(p: Policy, verifierOf: CodeVerifierOf, attempts: Limits.Attempts, s: Repo, r: RequestInput)
    requires PolicyOk(p) && Inv(s)
    ensures Inv(Request(p, verifierOf, attempts, s, r).1)
  {
    hide Inv, ChargeAll, IssueEmailChallenge;
    IssueKeepsInv(s, r.email, ChallengeFor(p, verifierOf, r), p.cooldown);
  }

  /** The keyed hash tells the codes of a challenge apart. */
  ghost predicate TellsCodesApart(verifierOf: CodeVerifierOf) {
    forall c, a, b :: verifierOf(c, a) == verifierOf(c, b) ==> a == b
  }

  /** Nothing but the code in the message opens its challenge; every other string is counted against it. */
  lemma OnlyTheSentCodeOpens(
      p: Policy, verifierOf: CodeVerifierOf, attempts: Limits.Attempts, later: Limits.Attempts, s: Repo,
      r: RequestInput, v: VerifyInput)
    requires PolicyOk(p) && Inv(s) && TellsCodesApart(verifierOf)
    requires
      var sent := Request(p, verifierOf, attempts, s, r).2;
      sent.Some? && IsCode(sent.value.code) && v.challengeId == sent.value.challengeId && v.code != sent.value.code
    ensures
      var requested := Request(p, verifierOf, attempts, s, r).1;
      var verified := Verify(p, verifierOf, later, requested, v);
      && verified.2.Refused?
      && (ChargeUntilRefused(later, VerifyLimits(p, v), v.chargedAt).1
          && v.now < requested.challenges.entries[v.challengeId].input.expiresAt ==>
            verified.1.challenges.entries[v.challengeId].attempts == 1)
  {
    hide Inv, ChargeUntilRefused, ChargeAll, Request, Verify, HandsOut;
    var requested := Request(p, verifierOf, attempts, s, r);
    MessageTellsTheChallenge(p, verifierOf, attempts, s, r);
    RequestKeepsInv(p, verifierOf, attempts, s, r);
    VerifyOutcome(p, verifierOf, later, requested.1, v);
    assert !IsCode("invalid") by { assert "invalid"[0] == 'i' && "invalid"[0] in "invalid"; }
  }

  /** The code of a message that could not be delivered never opens anything, whatever happens later. */
  lemma UndeliveredNeverOpens(
      p: Policy, verifierOf: CodeVerifierOf, attempts: Limits.Attempts, later: Limits.Attempts, s: Repo,
      r: RequestInput, ops: seq<Op>, v: VerifyInput)
    requires PolicyOk(p) && Inv(s)
    requires
      var (_, t, sent) := Request(p, verifierOf, attempts, s, r);
      && sent.Some? && v.challengeId == sent.value.challengeId
      && AuthRuns.FreshRun(InvalidateChallenge(t, sent.value.challengeId, r.now), ops)
    ensures
      var (_, t, sent) := Request(p, verifierOf, attempts, s, r);
      var end := Run(InvalidateChallenge(t, sent.value.challengeId, r.now), ops);
      Verify(p, verifierOf, later, end, v).1 == end && Verify(p, verifierOf, later, end, v).2.Refused?
  {
    hide Inv, ChargeUntilRefused, ChargeAll, Request, ConsumeChallenge, InvalidateChallenge;
    var requested := Request(p, verifierOf, attempts, s, r);
    MessageTellsTheChallenge(p, verifierOf, attempts, s, r);
    RequestKeepsInv(p, verifierOf, attempts, s, r);
    AuthAccess.TakenBackNeverOpens(requested.1, v.challengeId, r.now, ops, Presented(verifierOf, v), v.now,
      SessionFor(p, v.token, v.sessionId, v.now));
  }

  lemma EmailBasics(s: Repo, email: Email)
    requires Inv(s) && email in s.accountsByEmail
    ensures
      var u := s.accountsByEmail[email];
      u in s.accountsById && s.accountsById[u].userId == u && s.accountsById[u].email == email
  {
  }

  /**
   * The bounds the service hands out are the stored ones: from its opening on, the session is
   * accepted exactly until the idle bound in the reply, as long as nothing else happens.
   */
  lemma OpenedSessionWorks(
      p: Policy, verifierOf: CodeVerifierOf, attempts: Limits.Attempts, s: Repo, r: VerifyInput, at: Time)
    requires PolicyOk(p) && Inv(s) && at >= r.now
    ensures
      var after := Verify(p, verifierOf, attempts, s, r);
      after.2.Opened? ==>
        && r.token !in s.sessions.entries && r.token in after.1.sessions.entries
        && after.1.sessions.entries[r.token].idleExpiresAt
          == after.2.session.idleExpiresAt <= after.2.session.absoluteExpiresAt
        && after.1.sessions.entries[r.token].accountId == after.2.session.userId
        && HandsOut(p, after.2.session, after.1, r.token, r.sessionId, r.now)
        && (ValidateSession(after.1, r.token, at).Some? <==> at < after.2.session.idleExpiresAt)
  {
    hide Inv, ChargeUntilRefused, InvalidateChallenges, OrderedMap.Valid, CountWrongCode;
    if r.challengeId in s.challenges.entries { ChallengeBasics(s, r.challengeId); }
  }

  lemma OpenedOidcWorks(
      p: Policy, s: Repo, proofLength: nat, u: UserId, source: Verifier, token: Verifier, id: SessionId, now: Time,
      at: Time)
    requires PolicyOk(p) && Inv(s) && at >= now
    ensures
      var after := OpenOidc(p, s, proofLength, u, source, token, id, now);
      after.1.Opened? ==>
        && token !in s.sessions.entries && token in after.0.sessions.entries
        && after.0.sessions.entries[token].idleExpiresAt
          == after.1.session.idleExpiresAt <= after.1.session.absoluteExpiresAt
        && HandsOut(p, after.1.session, after.0, token, id, now) && after.1.session.userId == u
        && (ValidateSession(after.0, token, at).Some? <==> at < after.1.session.idleExpiresAt)
        && (forall v, j :: OpenOidc(p, after.0, proofLength, u, source, v, j, now).1 == Refused(InvalidSession))
  {
    hide Inv;
    var after := OpenOidc(p, s, proofLength, u, source, token, id, now);
    if after.1.Opened? { assert after.0.sessions.entries[token].source == Some(source); }
  }

  /** An OIDC proof opens a session exactly when it has 16 to 4096 characters and the bridge accepts it. */
  lemma OpenOidcOutcome(
      p: Policy, s: Repo, proofLength: nat, u: UserId, source: Verifier, token: Verifier, id: SessionId, now: Time)
    requires PolicyOk(p)
    ensures
      var (t, reply) := OpenOidc(p, s, proofLength, u, source, token, id, now);
      var used := exists v :: v in s.sessions.entries && s.sessions.entries[v].source == Some(source);
      var named := token in s.sessions.entries
        || exists v :: v in s.sessions.entries && s.sessions.entries[v].input.sessionId == id;
      && (reply.Opened? <==> 16 <= proofLength <= 4096 && IsActive(s, u) && !used && !named)
      && (reply == Refused(RepositoryFailure(Conflict))
          <==> 16 <= proofLength <= 4096 && IsActive(s, u) && !used && named)
      && (reply.Refused? ==> t == s)
      && (reply.Opened? ==> reply.session.userId == u && HandsOut(p, reply.session, t, token, id, now))
  {
    hide CreateOidcSession;
    OidcOutcome(s, u, source, SessionFor(p, token, id, now));
  }
}
