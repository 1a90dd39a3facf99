/**
 * Passkey ceremonies under any interleaving: many finishing requests in flight, each stopping at
 * every await, together with beginnings, expiry, crashes and all other work of the repository.
 */
module PasskeyRuns {
  import opened Collections
  import opened AuthState
  import opened AuthInvariant
  import opened AuthSessionLife
  import opened PasskeyCeremonies

  type CallId = nat

  /** Where a finishing request is. A request that failed, finished or crashed is no longer listed. */
  datatype Phase =
    | LoginAsked(login: LoginRequest)
    | LoginTaken(login: LoginRequest, ceremony: Ceremony)
    | LoginRead(login: LoginRequest, ceremony: Ceremony, credential: Credential)
    | LoginVerified(login: LoginRequest, ceremony: Ceremony, credential: Credential, assertion: Assertion)
    | RegistrationAsked(registration: RegistrationRequest, user: UserId)
    | RegistrationTaken(registration: RegistrationRequest, user: UserId, ceremony: Ceremony)
    | RegistrationVerified(registration: RegistrationRequest, user: UserId, ceremony: Ceremony,
      attestation: Attestation)

  /** The ceremony a request has taken out of the store. */
  function Holds(p: Phase): Option<CeremonyId> {
    match p
    case LoginAsked(_) => None
    case RegistrationAsked(_, _) => None
    case LoginTaken(q, _) => Some(q.id)
    case LoginRead(q, _, _) => Some(q.id)
    case LoginVerified(q, _, _, _) => Some(q.id)
    case RegistrationTaken(q, _, _) => Some(q.id)
    case RegistrationVerified(q, _, _, _) => Some(q.id)
  }

  /** What the repository accepted: a login with its new session, or a registration. */
  datatype Commit =
    | LoginDone(id: CeremonyId, context: ContextKey, sessionVerifier: Verifier, account: UserId)
    | RegistrationDone(id: CeremonyId, context: ContextKey, passkeyId: PasskeyId, account: UserId, actor: Verifier)

  /** `began` remembers every ceremony ever stored; `commits` every success, oldest first. */
  datatype System = System(
    store: Entries, began: Entries, calls: map<CallId, Phase>, repo: Repo, commits: seq<Commit>)

  const START: System := System(map[], map[], map[], EMPTY, [])

  datatype Move =
    | BeginLogin(id: CeremonyId, challenge: Challenge64, context: ContextKey)
    | BeginRegistration(id: CeremonyId, challenge: Challenge64, context: ContextKey, v: Verifier, user: UserId)
    | Expire(id: CeremonyId)
    | AskLogin(c: CallId, login: LoginRequest)
    | AskRegistration(c: CallId, registration: RegistrationRequest)
    | Take(c: CallId)
    | Read(c: CallId)
    | VerifyLogin(c: CallId, assertion: Option<Assertion>)
    | VerifyRegistration(c: CallId, attestation: Option<Attestation>)
    | CommitCall(c: CallId)
    | Crash(c: CallId)
    | OtherWork(op: Op)

  function Drop(s: System, c: CallId): System {
    s.(calls := s.calls - {c})
  }

  function Advance(s: System, c: CallId, p: Phase): System {
    s.(calls := s.calls[c := p])
  }

  /** Stored once: a ceremony identifier from the random source is never used again. */
  function Begin(s: System, id: CeremonyId, ceremony: Ceremony): System {
    if id in s.began || !ServiceAccepts(ceremony.challenge) then s
    else s.(store := s.store[id := ceremony], began := s.began[id := ceremony])
  }

  /** The atomic take; the checks that follow it touch nothing but the request itself. */
  function TakeFor(s: System, c: CallId): System
    requires c in s.calls
  {
    match s.calls[c]
    case LoginAsked(q) =>
      var (left, result) := TakeCeremony(s.store, q.id);
      var t := s.(store := left);
      if result.Found? && result.ceremony.Authentication? && result.ceremony.context == q.context
      then Advance(t, c, LoginTaken(q, result.ceremony))
      else Drop(t, c)
    case RegistrationAsked(q, user) =>
      var (left, result) := TakeCeremony(s.store, q.id);
      var t := s.(store := left);
      if && result.Found? && result.ceremony.Registration? && result.ceremony.accountId == user
         && result.ceremony.sessionVerifier == q.sessionVerifier && result.ceremony.context == q.context
      then Advance(t, c, RegistrationTaken(q, user, result.ceremony))
      else Drop(t, c)
    case _ => s
  }

  function CommitFor(s: System, c: CallId): System
    requires c in s.calls
  {
    match s.calls[c]
    case LoginVerified(q, ceremony, credential, a) =>
      var (repo, result) := CompletePasskeyLogin(s.repo, q.now, LoginInputOf(q, credential, a));
      var t := Drop(s, c).(repo := repo);
      if result.Ok? && result.value.Some?
      then t.(commits := s.commits +
        [LoginDone(q.id, q.context, q.session.tokenVerifier, result.value.value.accountId)])
      else t
    case RegistrationVerified(q, user, ceremony, a) =>
      var (repo, result) := RegisterPasskey(s.repo, q.sessionVerifier, q.now, PasskeyInputOf(q, a));
      var t := Drop(s, c).(repo := repo);
      if result.Ok?
      then t.(commits := s.commits + [RegistrationDone(q.id, q.context, q.passkeyId, result.value, q.sessionVerifier)])
      else t
    case _ => s
  }

  /** One move; a move that its process is not ready for does nothing. */
  function Next(s: System, m: Move): System {
    match m
    case BeginLogin(id, challenge, context) => Begin(s, id, Authentication(challenge, context))
    case BeginRegistration(id, challenge, context, v, user) => Begin(s, id, Registration(challenge, context, user, v))
    case Expire(id) => s.(store := s.store - {id})
    case AskLogin(c, q) => if c in s.calls || !q.responseOk || !q.withinLimits then s else Advance(s, c, LoginAsked(q))
    case AskRegistration(c, q) =>
      var principal := ValidateSession(s.repo, q.sessionVerifier, q.now);
      if c in s.calls || !q.responseOk || !q.withinLimits || principal.None? then s
      else Advance(s, c, RegistrationAsked(q, principal.value.userId))
    case Take(c) => if c in s.calls then TakeFor(s, c) else s
    case Read(c) =>
      if c !in s.calls || !s.calls[c].LoginTaken? then s
      else
        var q := s.calls[c].login;
        var credential := if q.credentialId.None? then None else ReadPasskey(s.repo, q.credentialId.value, q.now);
        if credential.None? then Drop(s, c) else Advance(s, c, LoginRead(q, s.calls[c].ceremony, credential.value))
    case VerifyLogin(c, a) =>
      if c !in s.calls || !s.calls[c].LoginRead? then s
      else if a.None? || !a.value.userVerified then Drop(s, c)
      else Advance(s, c, LoginVerified(s.calls[c].login, s.calls[c].ceremony, s.calls[c].credential, a.value))
    case VerifyRegistration(c, a) =>
      if c !in s.calls || !s.calls[c].RegistrationTaken? then s
      else if a.None? || !a.value.userVerified then Drop(s, c)
      else Advance(s, c, RegistrationVerified(s.calls[c].registration, s.calls[c].user, s.calls[c].ceremony, a.value))
    case CommitCall(c) => if c in s.calls then CommitFor(s, c) else s
    case Crash(c) => Drop(s, c)
    case OtherWork(op) => if op.OpLogin? || op.OpRegister? then s else s.(repo := Step(s.repo, op))
  }

  function RunSystem(s: System, moves: seq<Move>): System
    decreases moves
  {
    if moves == [] then s else RunSystem(Next(s, moves[0]), moves[1..])
  }

  // ---- Single use ----

  /** A request holding a ceremony holds the one that was stored, for its own client context. */
  ghost predicate HolderOk(began: Entries, p: Phase) {
    Holds(p).Some? ==>
      && Holds(p).value in began
      && match p
         case LoginTaken(q, ceremony) => began[q.id] == ceremony && ceremony.Authentication?
           && ceremony.context == q.context
         case LoginRead(q, ceremony, _) => began[q.id] == ceremony && ceremony.Authentication?
           && ceremony.context == q.context
         case LoginVerified(q, ceremony, _, _) => began[q.id] == ceremony && ceremony.Authentication?
           && ceremony.context == q.context
         case RegistrationTaken(q, user, ceremony) =>
           began[q.id] == ceremony && ceremony == Registration(ceremony.challenge, q.context, user, q.sessionVerifier)
         case RegistrationVerified(q, user, ceremony, _) =>
           began[q.id] == ceremony && ceremony == Registration(ceremony.challenge, q.context, user, q.sessionVerifier)
         case _ => true
  }

  /** A success names a ceremony that was begun for the same purpose and the same client context. */
  ghost predicate CommitOk(began: Entries, commit: Commit) {
    && commit.id in began
    && began[commit.id].context == commit.context
    && StoreAccepts(began[commit.id].challenge)
    && (commit.LoginDone? ==> began[commit.id].Authentication?)
    && (commit.RegistrationDone? ==>
          began[commit.id].Registration? && began[commit.id].sessionVerifier == commit.actor)
  }

  ghost predicate StoreOk(s: System) {
    forall id :: id in s.store ==> id in s.began && s.began[id] == s.store[id]
  }

  ghost predicate HoldersOk(s: System) {
    && (forall c :: c in s.calls ==> HolderOk(s.began, s.calls[c]))
    && (forall c :: c in s.calls && Holds(s.calls[c]).Some? ==>
          && Holds(s.calls[c]).value !in s.store
          && StoreAccepts(s.began[Holds(s.calls[c]).value].challenge))
    && (forall c, d ::
      c in s.calls && d in s.calls && Holds(s.calls[c]).Some? && Holds(s.calls[c]) == Holds(s.calls[d]) ==> c == d)
  }

  ghost predicate CommitsOk(s: System) {
    && (forall i :: 0 <= i < |s.commits| ==> CommitOk(s.began, s.commits[i]) && s.commits[i].id !in s.store)
    && (forall i, c :: 0 <= i < |s.commits| && c in s.calls ==> Holds(s.calls[c]) != Some(s.commits[i].id))
    && (forall i, j :: 0 <= i < j < |s.commits| ==> s.commits[i].id != s.commits[j].id)
  }

  ghost predicate Single(s: System) {
    StoreOk(s) && HoldersOk(s) && CommitsOk(s)
  }

  lemma BeginKeepsSingle(s: System, id: CeremonyId, ceremony: Ceremony)
    requires Single(s)
    ensures Single(Begin(s, id, ceremony))
  {
  }

  /** Dropping a request, or moving it on with the ceremony it already holds. */
  lemma DropKeepsSingle(s: System, c: CallId)
    requires Single(s)
    ensures Single(Drop(s, c))
  {
  }

  lemma AdvanceKeepsSingle(s: System, c: CallId, p: Phase)
    requires Single(s) && HolderOk(s.began, p)
    requires Holds(p).None? || (c in s.calls && Holds(p) == Holds(s.calls[c]))
    ensures Single(Advance(s, c, p))
  {
  }

  lemma RemoveKeepsSingle(s: System, id: CeremonyId)
    requires Single(s)
    ensures Single(s.(store := s.store - {id}))
  {
  }

  /** Taking moves a ceremony from the store to the request that asked for it. */
  lemma TookKeepsSingle(s: System, c: CallId, id: CeremonyId, p: Phase)
    requires Single(s) && c in s.calls && id in s.store && StoreAccepts(s.store[id].challenge)
    requires Holds(p) == Some(id) && HolderOk(s.began, p)
    ensures Single(Advance(s.(store := s.store - {id}), c, p))
  {
    assert forall d :: d in s.calls ==> Holds(s.calls[d]) != Some(id);
    assert forall i :: 0 <= i < |s.commits| ==> s.commits[i].id != id;
  }

  lemma TakeKeepsSingle(s: System, c: CallId)
    requires Single(s) && c in s.calls
    ensures Single(TakeFor(s, c))
  {
    hide Single;
    StoreIsBegun(s);
    match s.calls[c]
    case LoginAsked(q) =>
      RemoveKeepsSingle(s, q.id);
      DropKeepsSingle(s.(store := s.store - {q.id}), c);
      if q.id in s.store && StoreAccepts(s.store[q.id].challenge) && s.store[q.id].Authentication?
        && s.store[q.id].context == q.context {
        TookKeepsSingle(s, c, q.id, LoginTaken(q, s.store[q.id]));
      }
    case RegistrationAsked(q, user) =>
      RemoveKeepsSingle(s, q.id);
      DropKeepsSingle(s.(store := s.store - {q.id}), c);
      if && q.id in s.store && StoreAccepts(s.store[q.id].challenge)
         && s.store[q.id] == Registration(s.store[q.id].challenge, q.context, user, q.sessionVerifier)
      {
        TookKeepsSingle(s, c, q.id, RegistrationTaken(q, user, s.store[q.id]));
      }
    case _ =>
  }

  lemma StoreIsBegun(s: System)
    requires Single(s)
    ensures forall id :: id in s.store ==> id in s.began && s.began[id] == s.store[id]
  {
  }

  /** A success takes the ceremony from the request for good. */
  lemma DoneKeepsSingle(s: System, c: CallId, commit: Commit, repo: Repo)
    requires Single(s) && c in s.calls && Holds(s.calls[c]) == Some(commit.id)
    requires commit.id in s.began && StoreAccepts(s.began[commit.id].challenge) ==> CommitOk(s.began, commit)
    ensures Single(Drop(s, c).(repo := repo, commits := s.commits + [commit]))
  {
    assert HolderOk(s.began, s.calls[c]);
  }

  lemma CommitKeepsSingle(s: System, c: CallId)
    requires Single(s) && c in s.calls
    ensures Single(CommitFor(s, c))
  {
    HeldByCall(s, c);
    hide Single;
    DropKeepsSingle(s, c);
    match s.calls[c]
    case LoginVerified(q, ceremony, credential, a) =>
      var (repo, result) := CompletePasskeyLogin(s.repo, q.now, LoginInputOf(q, credential, a));
      RepoKeepsSingle(Drop(s, c), repo);
      if result.Ok? && result.value.Some? {
        DoneKeepsSingle(s, c, LoginDone(q.id, q.context, q.session.tokenVerifier, result.value.value.accountId), repo);
      }
    case RegistrationVerified(q, user, ceremony, a) =>
      var (repo, result) := RegisterPasskey(s.repo, q.sessionVerifier, q.now, PasskeyInputOf(q, a));
      RepoKeepsSingle(Drop(s, c), repo);
      if result.Ok? {
        DoneKeepsSingle(s, c, RegistrationDone(q.id, q.context, q.passkeyId, result.value, q.sessionVerifier), repo);
      }
    case _ =>
  }

  lemma HeldByCall(s: System, c: CallId)
    requires Single(s) && c in s.calls
    ensures HolderOk(s.began, s.calls[c])
  {
  }

  lemma RepoKeepsSingle(s: System, repo: Repo)
    requires Single(s)
    ensures Single(s.(repo := repo))
  {
  }

  lemma NextKeepsSingle(s: System, m: Move)
    requires Single(s)
    ensures Single(Next(s, m))
  {
    hide Single, TakeFor, CommitFor, Step, ReadPasskey, ValidateSession;
    match m
    case BeginLogin(id, challenge, context) => BeginKeepsSingle(s, id, Authentication(challenge, context));
    case BeginRegistration(id, challenge, context, v, user) => BeginKeepsSingle(s, id,
      Registration(challenge, context, user, v));
    case Expire(id) => RemoveKeepsSingle(s, id);
    case AskLogin(c, q) => AdvanceKeepsSingle(s, c, LoginAsked(q));
    case AskRegistration(c, q) =>
      if ValidateSession(s.repo, q.sessionVerifier, q.now).Some? {
        AdvanceKeepsSingle(s, c, RegistrationAsked(q, ValidateSession(s.repo, q.sessionVerifier, q.now).value.userId));
      }
    case Take(c) => if c in s.calls { TakeKeepsSingle(s, c); }
    case Read(c) =>
      DropKeepsSingle(s, c);
      if c in s.calls && s.calls[c].LoginTaken? {
        HeldByCall(s, c);
        var q := s.calls[c].login;
        var credential := if q.credentialId.None? then None else ReadPasskey(s.repo, q.credentialId.value, q.now);
        if credential.Some? { AdvanceKeepsSingle(s, c, LoginRead(q, s.calls[c].ceremony, credential.value)); }
      }
    case VerifyLogin(c, a) =>
      DropKeepsSingle(s, c);
      if c in s.calls && s.calls[c].LoginRead? && a.Some? {
        HeldByCall(s, c);
        AdvanceKeepsSingle(s, c, LoginVerified(s.calls[c].login, s.calls[c].ceremony, s.calls[c].credential, a.value));
      }
    case VerifyRegistration(c, a) =>
      DropKeepsSingle(s, c);
      if c in s.calls && s.calls[c].RegistrationTaken? && a.Some? {
        HeldByCall(s, c);
        AdvanceKeepsSingle(s, c,
          RegistrationVerified(s.calls[c].registration, s.calls[c].user, s.calls[c].ceremony, a.value));
      }
    case CommitCall(c) => if c in s.calls { CommitKeepsSingle(s, c); }
    case Crash(c) => DropKeepsSingle(s, c);
    case OtherWork(op) => RepoKeepsSingle(s, Step(s.repo, op));
  }

  lemma {:induction false} RunKeepsSingle(s: System, moves: seq<Move>)
    requires Single(s)
    ensures Single(RunSystem(s, moves))
    decreases moves
  {
    hide Single, Next;
    if moves != [] {
      NextKeepsSingle(s, moves[0]);
      RunKeepsSingle(Next(s, moves[0]), moves[1..]);
    }
  }

  /**
   * Under any interleaving one ceremony leads to at most one registration or login, and each of
   * them traces back to a ceremony of its own kind that was stored for the same client context
   * (and, for a registration, by the same session).
   */
  lemma CeremoniesAreSingleUse(moves: seq<Move>)
    ensures
      var s := RunSystem(START, moves);
      && (forall i, j :: 0 <= i < j < |s.commits| ==> s.commits[i].id != s.commits[j].id)
      && (forall i :: 0 <= i < |s.commits| ==> CommitOk(s.began, s.commits[i]))
  {
    RunKeepsSingle(START, moves);
  }

  /** A take consumes: whatever the store held and whatever kind was expected, it is gone afterwards. */
  lemma TakingConsumes(s: System, c: CallId)
    requires c in s.calls && (s.calls[c].LoginAsked? || s.calls[c].RegistrationAsked?)
    ensures
      var id := if s.calls[c].LoginAsked? then s.calls[c].login.id else s.calls[c].registration.id;
      var t := Next(s, Take(c));
      && id !in t.store
      && (c in t.calls <==>
            && id in s.store && StoreAccepts(s.store[id].challenge)
            && match s.calls[c]
               case LoginAsked(q) => s.store[id] == Authentication(s.store[id].challenge, q.context)
               case RegistrationAsked(q, user) => s.store[id]
                 == Registration(s.store[id].challenge, q.context, user, q.sessionVerifier)
               case _ => false)
  {
  }

  // ---- Where sessions come from ----

  /** The bridge accepts an unused source token of an active account and stores the session with it. */
  ghost predicate BridgeOpens(s: Repo, op: Op, v: Verifier) {
    && op.OpCreateOidc? && op.session.tokenVerifier == v
    && CreateOidcSession(s, op.u, op.source, op.session).1 == Ok(true)
    && ActiveAccount(s, op.u) && !SourceTaken(s, op.source)
    && Step(s, op).sessions.entries[v] == NewSession(op.session, op.u, Some(op.source))
  }

  /** The right code spends an open challenge and stores a session for the challenge's account. */
  ghost predicate CodeOpens(s: Repo, op: Op, v: Verifier) {
    && op.OpConsume? && op.session.tokenVerifier == v
    && op.c in s.challenges.entries && s.challenges.entries[op.c].Open()
    && s.challenges.entries[op.c].input.codeVerifier == op.candidate
    && op.c in Step(s, op).challenges.entries && Step(s, op).challenges.entries[op.c].usedAt == Some(op.now)
    && Step(s, op).sessions.entries[v] == NewSession(op.session, s.challenges.entries[op.c].accountId, None)
  }

  /** A verified login commits: the repository stores its session and the commit is recorded. */
  ghost predicate LoginOpens(s: System, c: CallId, v: Verifier) {
    && c in s.calls && s.calls[c].LoginVerified? && s.calls[c].login.session.tokenVerifier == v
    && var q, t := s.calls[c].login, Next(s, CommitCall(c));
       && v in t.repo.sessions.entries
       && t.commits == s.commits + [LoginDone(q.id, q.context, v, t.repo.sessions.entries[v].accountId)]
  }

  /** The move that puts the session there, and on what grounds. */
  ghost predicate Opens(s: System, m: Move, v: Verifier) {
    && v !in s.repo.sessions.entries && v in Next(s, m).repo.sessions.entries
    && ((m.OtherWork? && (BridgeOpens(s.repo, m.op, v) || CodeOpens(s.repo, m.op, v)))
      || (m.CommitCall? && LoginOpens(s, m.c, v)))
  }

  lemma WorkOpens(s: Repo, op: Op, v: Verifier)
    requires v !in s.sessions.entries && v in Step(s, op).sessions.entries && !op.OpLogin?
    ensures BridgeOpens(s, op, v) || CodeOpens(s, op, v)
  {
    hide Step, OrderedMap.Valid, NewSession, InvalidateChallenges, CreateOidcSession, ConsumeChallenge, SourceTaken;
    StepTouch(s, op, v);
    OnlyCreatorsTouch(s, op, v);
    if op.OpCreateOidc? { BridgeIsOpening(s, op, v); } else { CodeIsOpening(s, op, v); }
  }

  lemma BridgeIsOpening(s: Repo, op: Op, v: Verifier)
    requires op.OpCreateOidc? && v !in s.sessions.entries && v in Step(s, op).sessions.entries
    ensures BridgeOpens(s, op, v)
  {
    hide OrderedMap.Valid, SourceTaken, SessionIdTaken;
  }

  lemma CodeIsOpening(s: Repo, op: Op, v: Verifier)
    requires op.OpConsume? && v !in s.sessions.entries && v in Step(s, op).sessions.entries
    ensures CodeOpens(s, op, v)
  {
    hide OrderedMap.Valid, InvalidateChallenges;
  }

  /** Only an OIDC bridge, a spent e-mail challenge or a committed passkey login opens a session. */
  lemma NextOpens(s: System, m: Move, v: Verifier)
    requires v !in s.repo.sessions.entries && v in Next(s, m).repo.sessions.entries
    ensures Opens(s, m, v)
  {
    hide Step, CompletePasskeyLogin, RegisterPasskey, TakeCeremony, ReadPasskey, ValidateSession;
    hide BridgeOpens, CodeOpens;
    match m
    case OtherWork(op) => WorkOpens(s.repo, op, v);
    case CommitCall(c) =>
      var p := s.calls[c];
      if p.LoginVerified? {
        CommitOpens(s.repo, p.login.now, LoginInputOf(p.login, p.credential, p.assertion), v);
      } else if p.RegistrationVerified? {
        RegistrationOpensNothing(s.repo, p.registration.sessionVerifier, p.registration.now,
          PasskeyInputOf(p.registration, p.attestation));
      }
    case _ =>
  }

  lemma OnlyCreatorsTouch(s: Repo, op: Op, v: Verifier)
    requires v !in s.sessions.entries && TouchedBy(s, op, v).Some?
    ensures op.OpCreateOidc? || op.OpConsume? || op.OpLogin?
    ensures op.OpCreateOidc? ==> op.session.tokenVerifier == v
    ensures op.OpConsume? ==> op.session.tokenVerifier == v
  {
  }

  lemma CommitOpens(s: Repo, now: Time, input: LoginInput, v: Verifier)
    requires v !in s.sessions.entries && v in CompletePasskeyLogin(s, now, input).0.sessions.entries
    ensures
      var r := CompletePasskeyLogin(s, now, input);
      && v == input.session.tokenVerifier
      && r.1.Ok? && r.1.value.Some? && r.0.sessions.entries[v].accountId == r.1.value.value.accountId
  {
  }

  lemma RegistrationOpensNothing(s: Repo, actor: Verifier, now: Time, input: PasskeyInput)
    ensures RegisterPasskey(s, actor, now, input).0.sessions == s.sessions
  {
  }

  lemma CommitsGrow(s: System, m: Move)
    ensures s.commits <= Next(s, m).commits
  {
    hide Step, CompletePasskeyLogin, RegisterPasskey, TakeCeremony, ReadPasskey, ValidateSession;
  }

  /** No move takes a session away. */
  lemma SessionsStay(s: System, m: Move, v: Verifier)
    requires v in s.repo.sessions.entries
    ensures v in Next(s, m).repo.sessions.entries
  {
    hide Step, CompletePasskeyLogin, RegisterPasskey, TakeCeremony, ReadPasskey, ValidateSession;
    match m
    case OtherWork(op) => StepTouch(s.repo, op, v);
    case CommitCall(c) =>
      if c in s.calls && s.calls[c].LoginVerified? {
        var p := s.calls[c];
        LoginKeepsSessions(s.repo, p.login.now, LoginInputOf(p.login, p.credential, p.assertion));
      } else if c in s.calls && s.calls[c].RegistrationVerified? {
        var p := s.calls[c];
        RegistrationOpensNothing(s.repo, p.registration.sessionVerifier, p.registration.now,
          PasskeyInputOf(p.registration, p.attestation));
      }
    case _ =>
  }

  lemma LoginKeepsSessions(s: Repo, now: Time, input: LoginInput)
    ensures s.sessions.entries.Keys <= CompletePasskeyLogin(s, now, input).0.sessions.entries.Keys
  {
  }

  lemma {:induction false} SessionsStayRun(s: System, moves: seq<Move>, v: Verifier)
    requires v in s.repo.sessions.entries
    ensures v in RunSystem(s, moves).repo.sessions.entries
    decreases moves
  {
    hide Next;
    if moves != [] {
      SessionsStay(s, moves[0], v);
      SessionsStayRun(Next(s, moves[0]), moves[1..], v);
    }
  }

  /** The session was opened at move `i`; a commit made there is still among those of the whole run. */
  ghost predicate OpenedAt(s: System, moves: seq<Move>, i: nat, v: Verifier)
    requires i < |moves|
  {
    var before := RunSystem(s, moves[..i]);
    Opens(before, moves[i], v) && Next(before, moves[i]).commits <= RunSystem(s, moves).commits
  }

  lemma LaterMoves(s: System, moves: seq<Move>, i: nat)
    requires 0 < i <= |moves|
    ensures RunSystem(s, moves[..i]) == RunSystem(Next(s, moves[0]), moves[1..][..i - 1])
  {
    hide Next;
    assert moves[..i][1..] == moves[1..][..i - 1];
  }

  /**
   * Every session of a run was opened at exactly one of its moves: by the OIDC bridge accepting an
   * unused source token, by the right code spending an open e-mail challenge, or by the commit of a
   * verified passkey login, which CeremoniesAreSingleUse traces to its ceremony.
   */
  lemma {:induction false} SessionsAreTraced(s: System, moves: seq<Move>, v: Verifier)
    requires v !in s.repo.sessions.entries && v in RunSystem(s, moves).repo.sessions.entries
    ensures exists i ::
      && 0 <= i < |moves| && OpenedAt(s, moves, i, v)
      && forall j :: 0 <= j < |moves| && OpenedAt(s, moves, j, v) ==> j == i
    decreases moves
  {
    hide Next, Opens;
    var t := Next(s, moves[0]);
    if v in t.repo.sessions.entries {
      NextOpens(s, moves[0], v);
      CommitsGrowRun(t, moves[1..]);
      assert moves[..0] == [];
      assert OpenedAt(s, moves, 0, v);
      forall j | 0 < j < |moves| ensures !OpenedAt(s, moves, j, v) {
        LaterMoves(s, moves, j);
        SessionsStayRun(t, moves[1..][..j - 1], v);
        OpensTheAbsent(RunSystem(s, moves[..j]), moves[j], v);
      }
    } else {
      SessionsAreTraced(t, moves[1..], v);
      var i :| 0 <= i < |moves[1..]| && OpenedAt(t, moves[1..], i, v)
        && forall j :: 0 <= j < |moves[1..]| && OpenedAt(t, moves[1..], j, v) ==> j == i;
      forall j | 0 < j < |moves| ensures OpenedAt(s, moves, j, v) <==> OpenedAt(t, moves[1..], j - 1, v) {
        LaterMoves(s, moves, j);
        assert moves[1..][j - 1] == moves[j];
      }
      assert moves[..0] == [];
      OpensTheAbsent(s, moves[0], v);
      assert OpenedAt(s, moves, i + 1, v);
    }
  }

  lemma OpensTheAbsent(s: System, m: Move, v: Verifier)
    ensures Opens(s, m, v) ==> v !in s.repo.sessions.entries && v in Next(s, m).repo.sessions.entries
  {
  }

  lemma {:induction false} CommitsGrowRun(s: System, moves: seq<Move>)
    ensures s.commits <= RunSystem(s, moves).commits
    decreases moves
  {
    hide Next;
    if moves != [] {
      CommitsGrow(s, moves[0]);
      CommitsGrowRun(Next(s, moves[0]), moves[1..]);
    }
  }

  // ---- A finishing request is a run of moves ----

  lemma RunStep(s: System, m: Move, moves: seq<Move>)
    ensures RunSystem(s, [m] + moves) == RunSystem(Next(s, m), moves)
  {
    hide Next;
    assert ([m] + moves)[1..] == moves;
  }

  lemma RunNothing(s: System)
    ensures RunSystem(s, []) == s
  {
  }

  function LoginScript(c: CallId, q: LoginRequest, a: Option<Assertion>): seq<Move> {
    [AskLogin(c, q)] + ([Take(c)] + ([Read(c)] + ([VerifyLogin(c, a)] + ([CommitCall(c)] + []))))
  }

  /** What the oracle says when a login request, left alone, gets to ask it. */
  function LoginOracle(s: System, q: LoginRequest, verify: LoginCheck): Option<Assertion> {
    if q.id !in s.store || q.credentialId.None? then None
    else
      var credential := ReadPasskey(s.repo, q.credentialId.value, q.now);
      if credential.None? then None else verify(credential.value, s.store[q.id].challenge)
  }

  lemma LoginScriptRuns(s: System, c: CallId, q: LoginRequest, a: Option<Assertion>)
    ensures RunSystem(s, LoginScript(c, q, a)) ==
      Next(Next(Next(Next(Next(s, AskLogin(c, q)), Take(c)), Read(c)), VerifyLogin(c, a)), CommitCall(c))
  {
    hide Next, RunSystem;
    var s1 := Next(s, AskLogin(c, q));
    var s2 := Next(s1, Take(c));
    var s3 := Next(s2, Read(c));
    var s4 := Next(s3, VerifyLogin(c, a));
    RunStep(s, AskLogin(c, q), [Take(c)] + ([Read(c)] + ([VerifyLogin(c, a)] + ([CommitCall(c)] + []))));
    RunStep(s1, Take(c), [Read(c)] + ([VerifyLogin(c, a)] + ([CommitCall(c)] + [])));
    RunStep(s2, Read(c), [VerifyLogin(c, a)] + ([CommitCall(c)] + []));
    RunStep(s3, VerifyLogin(c, a), [CommitCall(c)] + []);
    RunStep(s4, CommitCall(c), []);
    RunNothing(Next(s4, CommitCall(c)));
  }

  /** A request that is no longer listed does nothing any more. */
  lemma UnlistedIsIdle(s: System, c: CallId, a: Option<Assertion>)
    requires c !in s.calls
    ensures Next(s, Take(c)) == Next(s, Read(c)) == Next(s, VerifyLogin(c, a)) == Next(s, CommitCall(c)) == s
  {
  }

  lemma LoginUpToTake(s: System, c: CallId, q: LoginRequest)
    requires c !in s.calls
    ensures
      var t := Next(Next(s, AskLogin(c, q)), Take(c));
      var taken := TakeCeremony(s.store, q.id).1;
      && t.store == (if q.responseOk && q.withinLimits then TakeCeremony(s.store, q.id).0 else s.store)
      && t.began == s.began && t.repo == s.repo && t.commits == s.commits
      && t.calls ==
           if q.responseOk && q.withinLimits && taken.Found? && taken.ceremony.Authentication?
             && taken.ceremony.context == q.context
           then s.calls[c := LoginTaken(q, taken.ceremony)] else s.calls
  {
    hide TakeCeremony, Step;
    assert s.calls[c := LoginAsked(q)] - {c} == s.calls;
    if !q.responseOk || !q.withinLimits { UnlistedIsIdle(s, c, None); }
  }

  lemma Unlist(before: map<CallId, Phase>, c: CallId, p: Phase)
    requires c !in before
    ensures before[c := p] - {c} == before
  {
  }

  /** The last three moves, each from the phase the one before it leads to. */
  lemma ReadMove(s: System, c: CallId, q: LoginRequest, ceremony: Ceremony)
    requires c in s.calls && s.calls[c] == LoginTaken(q, ceremony)
    ensures
      var credential := if q.credentialId.None? then None else ReadPasskey(s.repo, q.credentialId.value, q.now);
      Next(s, Read(c)) == if credential.None? then Drop(s, c)
        else Advance(s, c, LoginRead(q, ceremony, credential.value))
  {
    hide ReadPasskey, Step;
  }

  lemma VerifyMove(
      s: System, c: CallId, q: LoginRequest, ceremony: Ceremony, credential: Credential, a: Option<Assertion>)
    requires c in s.calls && s.calls[c] == LoginRead(q, ceremony, credential)
    ensures Next(s, VerifyLogin(c, a)) ==
      if a.None? || !a.value.userVerified then Drop(s, c)
        else Advance(s, c, LoginVerified(q, ceremony, credential, a.value))
  {
    hide Step;
  }

  lemma CommitMove(s: System, c: CallId, q: LoginRequest, ceremony: Ceremony, credential: Credential, a: Assertion)
    requires c in s.calls && s.calls[c] == LoginVerified(q, ceremony, credential, a)
    ensures
      var (repo, completed) := CompletePasskeyLogin(s.repo, q.now, LoginInputOf(q, credential, a));
      Next(s, CommitCall(c)) == Drop(s, c).(repo := repo, commits := s.commits +
        if completed.Ok? && completed.value.Some?
        then [LoginDone(q.id, q.context, q.session.tokenVerifier, completed.value.value.accountId)] else [])
  {
    hide CompletePasskeyLogin, Step;
    assert s.commits + [] == s.commits;
  }

  lemma LoginFromTake(
      s: System, c: CallId, before: map<CallId, Phase>, q: LoginRequest, ceremony: Ceremony, verify: LoginCheck,
      a: Option<Assertion>)
    requires s.calls == before[c := LoginTaken(q, ceremony)] && c !in before
    requires q.credentialId.Some? && ReadPasskey(s.repo, q.credentialId.value, q.now).Some? ==>
      a == verify(ReadPasskey(s.repo, q.credentialId.value, q.now).value, ceremony.challenge)
    ensures
      var t := Next(Next(Next(s, Read(c)), VerifyLogin(c, a)), CommitCall(c));
      var verdict := LoginVerdict(s.repo, q, ceremony.challenge, verify);
      && t.store == s.store && t.calls == before
      && if verdict.None? then t.repo == s.repo && t.commits == s.commits
         else
           var (repo, completed) :=
             CompletePasskeyLogin(s.repo, q.now, LoginInputOf(q, verdict.value.0, verdict.value.1));
           && t.repo == repo
           && t.commits == s.commits +
                if completed.Ok? && completed.value.Some?
                then [LoginDone(q.id, q.context, q.session.tokenVerifier, completed.value.value.accountId)] else []
  {
    hide ReadPasskey, CompletePasskeyLogin, Next;
    Unlist(before, c, LoginTaken(q, ceremony));
    ReadMove(s, c, q, ceremony);
    var s1 := Next(s, Read(c));
    var credential := if q.credentialId.None? then None else ReadPasskey(s.repo, q.credentialId.value, q.now);
    if credential.None? {
      UnlistedIsIdle(s1, c, a);
    } else {
      VerifyMove(s1, c, q, ceremony, credential.value, a);
      var s2 := Next(s1, VerifyLogin(c, a));
      Unlist(before, c, LoginRead(q, ceremony, credential.value));
      if a.None? || !a.value.userVerified {
        UnlistedIsIdle(s2, c, a);
      } else {
        CommitMove(s2, c, q, ceremony, credential.value, a.value);
        Unlist(before, c, LoginVerified(q, ceremony, credential.value, a.value));
      }
    }
  }

  /** Left alone, the moves of a login request do what the service's method does. */
  lemma FinishingLoginIsARun(s: System, c: CallId, q: LoginRequest, verify: LoginCheck)
    requires c !in s.calls
    ensures
      var t := RunSystem(s, LoginScript(c, q, LoginOracle(s, q, verify)));
      var (store, repo, r) := FinishLogin(s.store, s.repo, q, verify);
      && t.store == store && t.repo == repo && t.calls == s.calls
      && t.commits == s.commits +
        if r.Finished? then [LoginDone(q.id, q.context, q.session.tokenVerifier, r.value.accountId)] else []
  {
    hide RunSystem, ReadPasskey, CompletePasskeyLogin, StoreAccepts, Next, LoginVerdict;
    var a := LoginOracle(s, q, verify);
    LoginScriptRuns(s, c, q, a);
    LoginUpToTake(s, c, q);
    var taken := Next(Next(s, AskLogin(c, q)), Take(c));
    if c in taken.calls {
      LoginFromTake(taken, c, s.calls, q, s.store[q.id], verify, a);
    } else {
      UnlistedIsIdle(taken, c, a);
    }
  }

  // ---- A registration request is a run of moves ----

  function RegistrationScript(c: CallId, q: RegistrationRequest, a: Option<Attestation>): seq<Move> {
    [AskRegistration(c, q)] + ([Take(c)] + ([VerifyRegistration(c, a)] + ([CommitCall(c)] + [])))
  }

  /** What the oracle says when a registration request, left alone, gets to ask it. */
  function RegistrationOracle(s: System, q: RegistrationRequest, verify: RegistrationCheck): Option<Attestation> {
    if q.id in s.store then verify(s.store[q.id].challenge) else None
  }

  lemma RegistrationScriptRuns(s: System, c: CallId, q: RegistrationRequest, a: Option<Attestation>)
    ensures RunSystem(s, RegistrationScript(c, q, a)) ==
      Next(Next(Next(Next(s, AskRegistration(c, q)), Take(c)), VerifyRegistration(c, a)), CommitCall(c))
  {
    hide Next, RunSystem;
    var s1 := Next(s, AskRegistration(c, q));
    var s2 := Next(s1, Take(c));
    var s3 := Next(s2, VerifyRegistration(c, a));
    RunStep(s, AskRegistration(c, q), [Take(c)] + ([VerifyRegistration(c, a)] + ([CommitCall(c)] + [])));
    RunStep(s1, Take(c), [VerifyRegistration(c, a)] + ([CommitCall(c)] + []));
    RunStep(s2, VerifyRegistration(c, a), [CommitCall(c)] + []);
    RunStep(s3, CommitCall(c), []);
    RunNothing(Next(s3, CommitCall(c)));
  }

  lemma UnlistedRegistrationIsIdle(s: System, c: CallId, a: Option<Attestation>)
    requires c !in s.calls
    ensures Next(s, Take(c)) == Next(s, VerifyRegistration(c, a)) == Next(s, CommitCall(c)) == s
  {
  }

  lemma RegistrationUpToTake(s: System, c: CallId, q: RegistrationRequest)
    requires c !in s.calls
    ensures
      var t := Next(Next(s, AskRegistration(c, q)), Take(c));
      var principal := ValidateSession(s.repo, q.sessionVerifier, q.now);
      var asked := q.responseOk && q.withinLimits && principal.Some?;
      var taken := TakeCeremony(s.store, q.id).1;
      && t.store == (if asked then TakeCeremony(s.store, q.id).0 else s.store)
      && t.began == s.began && t.repo == s.repo && t.commits == s.commits
      && t.calls ==
           if && asked && taken.Found?
              && taken.ceremony == Registration(taken.ceremony.challenge, q.context, principal.value.userId,
                q.sessionVerifier)
           then s.calls[c := RegistrationTaken(q, principal.value.userId, taken.ceremony)] else s.calls
  {
    hide TakeCeremony, Step, ValidateSession;
    var principal := ValidateSession(s.repo, q.sessionVerifier, q.now);
    if q.responseOk && q.withinLimits && principal.Some? {
      Unlist(s.calls, c, RegistrationAsked(q, principal.value.userId));
    } else {
      UnlistedRegistrationIsIdle(s, c, None);
    }
  }

  lemma VerifyRegistrationMove(
      s: System, c: CallId, q: RegistrationRequest, user: UserId, ceremony: Ceremony, a: Option<Attestation>)
    requires c in s.calls && s.calls[c] == RegistrationTaken(q, user, ceremony)
    ensures Next(s, VerifyRegistration(c, a)) ==
      if a.None? || !a.value.userVerified then Drop(s, c)
        else Advance(s, c, RegistrationVerified(q, user, ceremony, a.value))
  {
    hide Step;
  }

  lemma CommitRegistrationMove(
      s: System, c: CallId, q: RegistrationRequest, user: UserId, ceremony: Ceremony, a: Attestation)
    requires c in s.calls && s.calls[c] == RegistrationVerified(q, user, ceremony, a)
    ensures
      var (repo, registered) := RegisterPasskey(s.repo, q.sessionVerifier, q.now, PasskeyInputOf(q, a));
      Next(s, CommitCall(c)) == Drop(s, c).(repo := repo, commits := s.commits +
        if registered.Ok?
        then [RegistrationDone(q.id, q.context, q.passkeyId, registered.value, q.sessionVerifier)] else [])
  {
    hide RegisterPasskey, Step;
    assert s.commits + [] == s.commits;
  }

  lemma RegistrationFromTake(
      s: System, c: CallId, before: map<CallId, Phase>, q: RegistrationRequest, user: UserId, ceremony: Ceremony,
      a: Option<Attestation>)
    requires s.calls == before[c := RegistrationTaken(q, user, ceremony)] && c !in before
    ensures
      var t := Next(Next(s, VerifyRegistration(c, a)), CommitCall(c));
      && t.store == s.store && t.calls == before
      && if a.None? || !a.value.userVerified then t.repo == s.repo && t.commits == s.commits
         else
           var (repo, registered) := RegisterPasskey(s.repo, q.sessionVerifier, q.now, PasskeyInputOf(q, a.value));
           && t.repo == repo
           && t.commits == s.commits +
                if registered.Ok?
                then [RegistrationDone(q.id, q.context, q.passkeyId, registered.value, q.sessionVerifier)] else []
  {
    hide RegisterPasskey, Next;
    Unlist(before, c, RegistrationTaken(q, user, ceremony));
    VerifyRegistrationMove(s, c, q, user, ceremony, a);
    var s1 := Next(s, VerifyRegistration(c, a));
    if a.None? || !a.value.userVerified {
      UnlistedRegistrationIsIdle(s1, c, a);
    } else {
      CommitRegistrationMove(s1, c, q, user, ceremony, a.value);
      Unlist(before, c, RegistrationVerified(q, user, ceremony, a.value));
    }
  }

  /** Left alone, the moves of a registration request do what the service's method does. */
  lemma FinishingRegistrationIsARun(s: System, c: CallId, q: RegistrationRequest, verify: RegistrationCheck)
    requires c !in s.calls && Inv(s.repo)
    ensures
      var t := RunSystem(s, RegistrationScript(c, q, RegistrationOracle(s, q, verify)));
      var (store, repo, r) := FinishRegistering(s.store, s.repo, q, verify);
      && t.store == store && t.repo == repo && t.calls == s.calls
      && t.commits == s.commits +
           if r.Finished?
           then [RegistrationDone(q.id, q.context, q.passkeyId, s.store[q.id].accountId, q.sessionVerifier)] else []
  {
    hide RunSystem, Next, Inv, RegisterPasskey, ValidateSession, StoreAccepts;
    var a := RegistrationOracle(s, q, verify);
    RegistrationScriptRuns(s, c, q, a);
    RegistrationUpToTake(s, c, q);
    var taken := Next(Next(s, AskRegistration(c, q)), Take(c));
    if c in taken.calls {
      var user := ValidateSession(s.repo, q.sessionVerifier, q.now).value.userId;
      RegistrationFromTake(taken, c, s.calls, q, user, s.store[q.id], a);
      if a.Some? { RegistrationAnswersOwner(s.repo, q, a.value); }
    } else {
      UnlistedRegistrationIsIdle(taken, c, a);
    }
  }

  lemma RegistrationAnswersOwner(s: Repo, q: RegistrationRequest, a: Attestation)
    requires Inv(s) && ValidateSession(s, q.sessionVerifier, q.now).Some?
    ensures
      var registered := RegisterPasskey(s, q.sessionVerifier, q.now, PasskeyInputOf(q, a)).1;
      registered.Ok? ==> registered.value == ValidateSession(s, q.sessionVerifier, q.now).value.userId
  {
    PrincipalIsSessionAccount(s, q.sessionVerifier, q.now);
    hide Inv;
  }

  /** A ceremony begun under a new id, with a challenge of the service's own shape, is in the store. */
  lemma BeginningStores(
      s: System, id: CeremonyId, challenge: Challenge64, context: ContextKey, v: Verifier, user: UserId)
    requires ServiceAccepts(challenge) && id !in s.began
    ensures
      var t := Next(s, BeginLogin(id, challenge, context));
      t == s.(store := s.store[id := Authentication(challenge, context)], began := t.began)
    ensures
      var t := Next(s, BeginRegistration(id, challenge, context, v, user));
      t == s.(store := s.store[id := Registration(challenge, context, user, v)], began := t.began)
  {
  }
}
