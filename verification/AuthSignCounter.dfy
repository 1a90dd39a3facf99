/** The signature counter of a passkey over a whole run. */
module AuthSignCounter {
  import opened Collections
  import opened AuthState
  import opened AuthInvariant

  /** The counter an accepted registration or login of this passkey presented. */
  function ObservedBy(s: Repo, op: Op, p: PasskeyId): Option<nat> {
    match op
    case OpRegister(v, now, input) =>
      if input.passkeyId == p && RegisterPasskey(s, v, now, input).1.Ok? then Some(input.signCount) else None
    case OpLogin(now, input) =>
      var reply := CompletePasskeyLogin(s, now, input).1;
      if && reply.Ok? && reply.value.Some? && input.credentialId in s.passkeysByCredentialId
         && s.passkeysByCredentialId[input.credentialId] == p
      then Some(input.observedSignCount)
      else None
    case _ => None
  }

  function Observations(s: Repo, ops: seq<Op>, p: PasskeyId): seq<nat>
    decreases ops
  {
    if ops == [] then []
    else
      (match ObservedBy(s, ops[0], p) case None => [] case Some(n) => [n]) + Observations(Step(s, ops[0]), ops[1..], p)
  }

  function Largest(s: seq<nat>): nat {
    if s == [] then 0 else Max(s[0], Largest(s[1..]))
  }

  lemma {:induction false} LargestIsMaximum(s: seq<nat>)
    requires s != []
    ensures Largest(s) in s && forall i :: 0 <= i < |s| ==> s[i] <= Largest(s)
  {
    if |s| > 1 {
      LargestIsMaximum(s[1..]);
    }
  }

  lemma AdministerKeepsCounters(s: Repo, owner: bool, request: Administration, now: Time, p: PasskeyId)
    ensures
      var t := Administer(s, owner, request, now).0;
      && (p in t.passkeysById.entries <==> p in s.passkeysById.entries)
      && (p in s.passkeysById.entries ==> t.passkeysById.entries[p].signCount == s.passkeysById.entries[p].signCount)
  {
  }

  /** The operation changes this passkey's counter exactly as what it observed says. */
  ghost predicate CounterFollows(s: Repo, op: Op, p: PasskeyId) {
    var before, after, seen := s.passkeysById.entries, Step(s, op).passkeysById.entries, ObservedBy(s, op, p);
    && (p in before ==>
          && p in after
          && after[p].signCount == if seen.None? then before[p].signCount else Max(before[p].signCount, seen.value))
    && (p !in before ==>
          && (p in after <==> seen.Some?)
          && (p in after ==> after[p].signCount == seen.value))
  }

  lemma AdminCounter(s: Repo, op: Op, p: PasskeyId)
    requires op.OpAdmin?
    ensures CounterFollows(s, op, p)
  {
    hide Administer;
    if RequireAdministrator(s, op.v, op.now).Some? {
      AdministerKeepsCounters(RequireAdministrator(s, op.v, op.now).value, OwnerActs(s, op.v), op.request, op.now, p);
    }
  }

  lemma LoginCounterFollows(s: Repo, op: Op, p: PasskeyId)
    requires Inv(s) && op.OpLogin?
    ensures CounterFollows(s, op, p)
  {
    hide Inv;
    if op.login.credentialId in s.passkeysByCredentialId { CredentialBasics(s, op.login.credentialId); }
  }

  lemma RegisterCounter(s: Repo, op: Op, p: PasskeyId)
    requires op.OpRegister?
    ensures CounterFollows(s, op, p)
  {
  }

  lemma OtherCounter(s: Repo, op: Op, p: PasskeyId)
    requires !op.OpAdmin? && !op.OpLogin? && !op.OpRegister?
    ensures CounterFollows(s, op, p)
  {
    hide ConsumeChallenge, IssueEmailChallenge, RevokeSessions, InvalidateChallenges, OrderedMap.Valid;
    match op
    case OpConsume(c, candidate, now, input) => ConsumeKeepsPasskeys(s, c, candidate, now, input);
    case OpIssue(email, input, cooldown) => IssueKeepsPasskeys(s, email, input, cooldown);
    case _ =>
  }

  lemma StepCounter(s: Repo, op: Op, p: PasskeyId)
    requires Inv(s)
    ensures CounterFollows(s, op, p)
  {
    hide Inv, CounterFollows;
    match op
    case OpAdmin(_, _, _) => AdminCounter(s, op, p);
    case OpLogin(_, _) => LoginCounterFollows(s, op, p);
    case OpRegister(_, _, _) => RegisterCounter(s, op, p);
    case _ => OtherCounter(s, op, p);
  }

  lemma ConsumeKeepsPasskeys(s: Repo, c: ChallengeId, candidate: CodeVerifier, now: Time, input: SessionInput)
    ensures ConsumeChallenge(s, c, candidate, now, input).0.passkeysById == s.passkeysById
  {
  }

  lemma IssueKeepsPasskeys(s: Repo, email: Email, input: ChallengeInput, cooldown: int)
    ensures IssueEmailChallenge(s, email, input, cooldown).0.passkeysById == s.passkeysById
  {
  }

  lemma {:induction false} CounterFrom(s: Repo, ops: seq<Op>, p: PasskeyId)
    requires Inv(s) && p in s.passkeysById.entries
    ensures p in Run(s, ops).passkeysById.entries
    ensures Run(s, ops).passkeysById.entries[p].signCount
      == Max(s.passkeysById.entries[p].signCount, Largest(Observations(s, ops, p)))
    decreases ops
  {
    hide Step, Inv, ObservedBy;
    if ops != [] {
      StepKeepsInv(s, ops[0]);
      StepCounter(s, ops[0], p);
      CounterFrom(Step(s, ops[0]), ops[1..], p);
      assert ObservedBy(s, ops[0], p).Some? ==>
        Observations(s, ops, p)[1..] == Observations(Step(s, ops[0]), ops[1..], p);
      assert ObservedBy(s, ops[0], p).None? ==> Observations(s, ops, p) == Observations(Step(s, ops[0]), ops[1..], p);
    }
  }

  /**
   * In every run from an empty repository the stored counter of a passkey is the largest of the
   * value it was registered with and all the counters its accepted logins presented.
   */
  lemma {:induction false} CounterIsMaximum(s: Repo, ops: seq<Op>, p: PasskeyId)
    requires Inv(s) && p !in s.passkeysById.entries
    requires p in Run(s, ops).passkeysById.entries
    ensures
      var observed, stored := Observations(s, ops, p), Run(s, ops).passkeysById.entries[p].signCount;
      stored in observed && forall i :: 0 <= i < |observed| ==> observed[i] <= stored
    decreases ops
  {
    hide Step, Inv, ObservedBy;
    if ops != [] {
      var t := Step(s, ops[0]);
      StepKeepsInv(s, ops[0]);
      StepCounter(s, ops[0], p);
      if p in t.passkeysById.entries {
        CounterFrom(t, ops[1..], p);
        assert Observations(s, ops, p) == [t.passkeysById.entries[p].signCount] + Observations(t, ops[1..], p);
        LargestIsMaximum(Observations(s, ops, p));
      } else {
        CounterIsMaximum(t, ops[1..], p);
        assert Observations(s, ops, p) == Observations(t, ops[1..], p);
      }
    }
  }

  /**
   * One login: it is refused without any change when the caller's idea of the counter is stale;
   * otherwise `Advanced` is reported exactly when the stored counter grew, and `Regressed` exactly
   * when a smaller one was presented.
   */
  lemma LoginCounter(s: Repo, now: Time, input: LoginInput)
    requires Inv(s) && UsablePasskey(s, input.credentialId).Some? && input.userVerified
    ensures
      var p := UsablePasskey(s, input.credentialId).value;
      var r := CompletePasskeyLogin(s, now, input);
      && (p.signCount != input.expectedSignCount ==> r == (s, Thrown(Conflict)))
      && (r.1.Ok? ==>
            && r.1.value.Some? && p.passkeyId in r.0.passkeysById.entries
            && (r.1.value.value.signCountStatus.Advanced?
              <==> r.0.passkeysById.entries[p.passkeyId].signCount > p.signCount)
            && (r.1.value.value.signCountStatus.Regressed? <==> input.observedSignCount < p.signCount))
      && (r.1.Thrown? ==> r.0 == s)
  {
    hide Inv;
    InvBasics(s);
  }
}
