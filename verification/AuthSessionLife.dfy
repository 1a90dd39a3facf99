/** How long a session can live: the chain of touches that keeps it alive. */
module AuthSessionLife {
  import opened Collections
  import opened AuthState
  import opened AuthInvariant
  import opened AuthRuns

  /** When the operation created the session or accepted it and renewed its idle clock. */
  function TouchedBy(s: Repo, op: Op, v: Verifier): Option<Time> {
    match op
    case OpAuthenticate(w, now) => if w == v && AuthenticateSession(s, w, now).1.Some? then Some(now) else None
    case OpAdmin(w, now, _) => if w == v && RequireAdministrator(s, w, now).Some? then Some(now) else None
    case OpCreateOidc(u, source, input) =>
      if input.tokenVerifier == v && CreateOidcSession(s, u, source, input).1 == Ok(true) then Some(input.issuedAt)
        else None
    case OpConsume(c, candidate, now, input) =>
      var reply := ConsumeChallenge(s, c, candidate, now, input).1;
      if input.tokenVerifier == v && reply.Ok? && reply.value.Authenticated? then Some(input.issuedAt) else None
    case OpLogin(now, input) =>
      var reply := CompletePasskeyLogin(s, now, input).1;
      if input.session.tokenVerifier == v && reply.Ok? && reply.value.Some? then Some(now) else None
    case _ => None
  }

  function Touches(s: Repo, ops: seq<Op>, v: Verifier): seq<Time>
    decreases ops
  {
    if ops == [] then []
    else
      (match TouchedBy(s, ops[0], v) case None => [] case Some(t) => [t]) + Touches(Step(s, ops[0]), ops[1..], v)
  }

  /** Every touch but the first came before the absolute bound and within the idle lifetime of the one before. */
  ghost predicate Linked(h: seq<Time>, input: SessionInput) {
    forall i :: 0 < i < |h| ==> h[i] < h[i - 1] + input.idleLifetime && h[i] < input.absoluteExpiresAt
  }

  lemma AdministerKeepsTouch(s: Repo, owner: bool, request: Administration, now: Time, v: Verifier)
    ensures
      var t := Administer(s, owner, request, now).0;
      && (v in t.sessions.entries <==> v in s.sessions.entries)
      && (v in s.sessions.entries ==> t.sessions.entries[v].lastSeenAt == s.sessions.entries[v].lastSeenAt)
  {
  }

  /**
   * A session appears exactly when an operation created it, is touched only while it is alive, and
   * only touches move its idle clock.
   */
  ghost predicate TouchFollows(s: Repo, op: Op, v: Verifier) {
    var before, after, touch := s.sessions.entries, Step(s, op).sessions.entries, TouchedBy(s, op, v);
    && (v in before ==>
          && v in after
          && after[v].lastSeenAt == (if touch.None? then before[v].lastSeenAt else touch.value)
          && (touch.Some? ==> !before[v].ExpiredAt(touch.value)))
    && (v !in before ==>
          && (v in after <==> touch.Some?)
          && (v in after ==> after[v].lastSeenAt == touch.value))
  }

  lemma AdminTouch(s: Repo, op: Op, v: Verifier)
    requires op.OpAdmin?
    ensures TouchFollows(s, op, v)
  {
    hide Administer;
    if RequireAdministrator(s, op.v, op.now).Some? {
      AdministerKeepsTouch(RequireAdministrator(s, op.v, op.now).value, OwnerActs(s, op.v), op.request, op.now, v);
    }
  }

  lemma AuthenticateTouch(s: Repo, op: Op, v: Verifier)
    requires op.OpAuthenticate?
    ensures TouchFollows(s, op, v)
  {
  }

  lemma ConsumeTouch(s: Repo, op: Op, v: Verifier)
    requires op.OpConsume?
    ensures TouchFollows(s, op, v)
  {
  }

  lemma LoginTouch(s: Repo, op: Op, v: Verifier)
    requires op.OpLogin?
    ensures TouchFollows(s, op, v)
  {
  }

  lemma OtherTouch(s: Repo, op: Op, v: Verifier)
    requires !op.OpAdmin? && !op.OpAuthenticate? && !op.OpConsume? && !op.OpLogin?
    ensures TouchFollows(s, op, v)
  {
    hide IssueEmailChallenge;
    if op.OpIssue? { IssueKeepsSessions(s, op.email, op.challenge, op.cooldown); }
  }

  lemma IssueKeepsSessions(s: Repo, email: Email, input: ChallengeInput, cooldown: int)
    ensures IssueEmailChallenge(s, email, input, cooldown).0.sessions == s.sessions
  {
  }

  lemma StepTouch(s: Repo, op: Op, v: Verifier)
    ensures TouchFollows(s, op, v)
  {
    hide TouchFollows;
    match op
    case OpAdmin(_, _, _) => AdminTouch(s, op, v);
    case OpAuthenticate(_, _) => AuthenticateTouch(s, op, v);
    case OpConsume(_, _, _, _) => ConsumeTouch(s, op, v);
    case OpLogin(_, _) => LoginTouch(s, op, v);
    case _ => OtherTouch(s, op, v);
  }

  lemma {:induction false} TouchesLink(s: Repo, ops: seq<Op>, v: Verifier)
    requires Inv(s) && v in s.sessions.entries
    ensures
      var h := [s.sessions.entries[v].lastSeenAt] + Touches(s, ops, v);
      && v in Run(s, ops).sessions.entries
      && Linked(h, s.sessions.entries[v].input)
      && h[|h| - 1] == Run(s, ops).sessions.entries[v].lastSeenAt
    decreases ops
  {
    hide Step, Inv, TouchedBy, PasskeysOnlyClose, ChallengesOnlyClose, FreshStep;
    if ops != [] {
      var t := Step(s, ops[0]);
      StepKeepsInv(s, ops[0]);
      StepTouch(s, ops[0], v);
      StepOnlyCloses(s, ops[0]);
      TouchesLink(t, ops[1..], v);
      IdleBound(s, v);
      var rest := Touches(t, ops[1..], v);
      if TouchedBy(s, ops[0], v).Some? {
        var touch := TouchedBy(s, ops[0], v).value;
        assert [s.sessions.entries[v].lastSeenAt] + Touches(s, ops, v)
          == [s.sessions.entries[v].lastSeenAt] + ([touch] + rest);
      } else {
        assert Touches(s, ops, v) == rest;
      }
    }
  }

  lemma IdleBound(s: Repo, v: Verifier)
    requires Inv(s) && v in s.sessions.entries
    ensures IdleRule(s.sessions.entries[v])
  {
  }

  lemma AcceptedWhen(s: Repo, v: Verifier, now: Time)
    requires v in s.sessions.entries && IdleRule(s.sessions.entries[v])
    ensures
      var session := s.sessions.entries[v];
      AuthenticateSession(s, v, now).1.Some? <==>
        && session.Live() && ActiveAccount(s, session.accountId)
        && now < session.input.absoluteExpiresAt && now < session.lastSeenAt + session.input.idleLifetime
  {
  }

  /**
   * The life of a session over a whole run from an empty repository. Its touches start with its
   * creation and are linked; and it is accepted at `now` exactly when it has not been revoked, its
   * account is active, `now` lies before the absolute bound and within the idle lifetime of the
   * last touch.
   */
  lemma {:induction false} SessionLife(s: Repo, ops: seq<Op>, v: Verifier, now: Time)
    requires Inv(s) && v !in s.sessions.entries
    requires v in Run(s, ops).sessions.entries
    ensures
      var t, h := Run(s, ops), Touches(s, ops, v);
      var session := t.sessions.entries[v];
      && h != [] && Linked(h, session.input)
      && (AuthenticateSession(t, v, now).1.Some? <==>
           && session.Live() && ActiveAccount(t, session.accountId)
           && now < session.input.absoluteExpiresAt && now < h[|h| - 1] + session.input.idleLifetime)
    decreases ops
  {
    hide Step, Inv, TouchedBy, PasskeysOnlyClose, ChallengesOnlyClose, FreshStep, AuthenticateSession, IdleRule, Linked;
    if ops != [] {
      var t := Step(s, ops[0]);
      StepKeepsInv(s, ops[0]);
      StepTouch(s, ops[0], v);
      if v in t.sessions.entries {
        TouchesLink(t, ops[1..], v);
        RunKeepsInv(t, ops[1..]);
        RunOnlyCloses(t, ops[1..]);
        IdleBound(Run(t, ops[1..]), v);
        AcceptedWhen(Run(t, ops[1..]), v, now);
        assert Touches(s, ops, v) == [t.sessions.entries[v].lastSeenAt] + Touches(t, ops[1..], v);
      } else {
        SessionLife(t, ops[1..], v, now);
        assert Touches(s, ops, v) == Touches(t, ops[1..], v);
      }
    }
  }

  /** A session accepted after n touches is at most n idle lifetimes older than the first. */
  lemma {:induction false} LinkedReach(h: seq<Time>, input: SessionInput, now: Time)
    requires h != [] && Linked(h, input) && now < h[|h| - 1] + input.idleLifetime
    ensures now < h[0] + |h| * input.idleLifetime
  {
    if |h| > 1 {
      var shorter := h[..|h| - 1];
      assert shorter[|shorter| - 1] == h[|h| - 2];
      LinkedReach(shorter, input, h[|h| - 1]);
      assert |h| * input.idleLifetime == |shorter| * input.idleLifetime + input.idleLifetime by {
        MultiplyOneMore(|shorter|, input.idleLifetime);
      }
    }
  }

  lemma MultiplyOneMore(n: nat, x: int)
    ensures (n + 1) * x == n * x + x
  {
  }

  /**
   * Validating reads only, and its answer is the one authenticating would give, except for a
   * session that is presented before it was issued: that one only authenticating accepts.
   */
  lemma ValidateAgreesWithAuthenticate(s: Repo, v: Verifier, now: Time)
    requires v in s.sessions.entries
    ensures ValidateSession(s, v, now) == AuthenticateSession(s, v, now).1
      <==> !(Acceptable(s, v, now) && now < s.sessions.entries[v].input.issuedAt)
  {
  }
}
