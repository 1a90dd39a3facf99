/** How many wrong codes can be tried, and how often a challenge can be spent. */
module AuthChallengeBudget {
  import opened Collections
  import opened AuthState
  import opened AuthInvariant
  import opened AuthRuns

  /** The account against which the operation counts a wrong code. */
  function WrongCodeFor(s: Repo, op: Op): Option<UserId> {
    if && op.OpConsume? && Answerable(s, op.c, op.now)
       && s.challenges.entries[op.c].input.codeVerifier != op.candidate
    then Some(s.challenges.entries[op.c].accountId)
    else None
  }

  /** The account to which the operation issues a challenge. */
  function IssuedFor(s: Repo, op: Op): Option<UserId> {
    if op.OpIssue? && IssueEmailChallenge(s, op.email, op.challenge,
      op.cooldown).1.Issued? then Some(s.accountsByEmail[op.email])
    else None
  }

  /** The service issues every challenge under one policy. */
  predicate Policy(op: Op, maxAttempts: nat, cooldown: int) {
    op.OpIssue? ==> op.challenge.maxAttempts == maxAttempts && op.cooldown == cooldown
  }

  ghost predicate IssuedUnder(challenges: Challenges, maxAttempts: nat) {
    forall c :: c in challenges.entries ==> challenges.entries[c].input.maxAttempts == maxAttempts
  }

  predicate InWindow(t: Time, lo: Time, hi: Time) {
    lo <= t <= hi
  }

  function WrongBetween(s: Repo, ops: seq<Op>, u: UserId, lo: Time, hi: Time): nat
    decreases ops
  {
    if ops == [] then 0
    else
      (if WrongCodeFor(s, ops[0]) == Some(u) && InWindow(ops[0].now, lo, hi) then 1 else 0)
      + WrongBetween(Step(s, ops[0]), ops[1..], u, lo, hi)
  }

  function IssuedBetween(s: Repo, ops: seq<Op>, u: UserId, lo: Time, hi: Time): nat
    decreases ops
  {
    if ops == [] then 0
    else
      (if IssuedFor(s, ops[0]) == Some(u) && InWindow(ops[0].challenge.issuedAt, lo, hi) then 1 else 0)
      + IssuedBetween(Step(s, ops[0]), ops[1..], u, lo, hi)
  }

  /** Codes are presented and challenges issued under a clock that never runs backwards. */
  ghost predicate Clocked(ops: seq<Op>, from: Time)
    decreases ops
  {
    ops == [] ||
    match ops[0]
    case OpConsume(_, _, now, _) => from <= now && Clocked(ops[1..], now)
    case OpIssue(_, challenge, _) => from <= challenge.issuedAt && Clocked(ops[1..], challenge.issuedAt)
    case _ => Clocked(ops[1..], from)
  }

  ghost predicate PolicyRun(ops: seq<Op>, maxAttempts: nat, cooldown: int) {
    forall i :: 0 <= i < |ops| ==> Policy(ops[i], maxAttempts, cooldown)
  }

  /** The wrong codes the open challenges of the account can still take, at most one being open. */
  ghost function Room(challenges: Challenges, u: UserId, maxAttempts: nat): int {
    var open := OpenChallenges(challenges, u);
    if open == {} then 0
    else
      var c :| c in open;
      maxAttempts - challenges.entries[c].attempts
  }

  lemma RoomIs(s: Repo, u: UserId, maxAttempts: nat, c: ChallengeId)
    requires Inv(s) && c in OpenChallenges(s.challenges, u)
    ensures Room(s.challenges, u, maxAttempts) == maxAttempts - s.challenges.entries[c].attempts
  {
  }

  lemma RoomBounds(s: Repo, u: UserId, maxAttempts: nat)
    requires Inv(s) && IssuedUnder(s.challenges, maxAttempts)
    ensures 0 <= Room(s.challenges, u, maxAttempts) <= maxAttempts
  {
  }

  /** Only issuing adds a challenge. */
  ghost predicate KeysFollow(s: Repo, op: Op) {
    && (!op.OpIssue? ==> Step(s, op).challenges.entries.Keys == s.challenges.entries.Keys)
    && (op.OpIssue? && IssuedFor(s, op).None? ==> Step(s, op) == s)
  }

  lemma ConsumeKeys(s: Repo, op: Op)
    requires op.OpConsume?
    ensures KeysFollow(s, op)
  {
    hide OrderedMap.Valid, NewSession, ActiveAccount, Challenge.Open, SpendChallenge, InvalidateChallenges;
    if Answerable(s, op.c, op.now) {
      var u := s.challenges.entries[op.c].accountId;
      SpendingKeepsAttempts(s, op.c, op.now, NewSession(op.session, u, None), op.c);
    }
  }

  lemma AdminKeys(s: Repo, op: Op)
    requires op.OpAdmin?
    ensures KeysFollow(s, op)
  {
    hide Administer;
    if RequireAdministrator(s, op.v, op.now).Some? {
      AdministerKeepsKeys(RequireAdministrator(s, op.v, op.now).value, OwnerActs(s, op.v), op.request, op.now);
    }
  }

  lemma OtherKeys(s: Repo, op: Op)
    requires !op.OpConsume? && !op.OpAdmin?
    ensures KeysFollow(s, op)
  {
  }

  lemma KeysOnlyIssued(s: Repo, op: Op)
    ensures KeysFollow(s, op)
  {
    hide KeysFollow;
    if op.OpConsume? { ConsumeKeys(s, op); }
    else if op.OpAdmin? { AdminKeys(s, op); }
    else { OtherKeys(s, op); }
  }

  lemma AdministerKeepsKeys(s: Repo, owner: bool, request: Administration, now: Time)
    ensures Administer(s, owner, request, now).0.challenges.entries.Keys == s.challenges.entries.Keys
    ensures Administer(s, owner, request, now).0.latestChallengeAt == s.latestChallengeAt
  {
  }

  lemma IssueOpens(s: Repo, op: Op, u: UserId, maxAttempts: nat)
    requires Inv(s) && IssuedFor(s, op) == Some(u) && op.challenge.maxAttempts == maxAttempts
    ensures Room(Step(s, op).challenges, u, maxAttempts) == maxAttempts
  {
    hide Inv, OrderedMap.Valid;
    var t := Step(s, op);
    IssueKeepsInv(s, op.email, op.challenge, op.cooldown);
    assert op.challenge.challengeId in OpenChallenges(t.challenges, u);
    RoomIs(t, u, maxAttempts, op.challenge.challengeId);
  }

  /** Without a new challenge of its own, an account's room only shrinks. */
  lemma RoomShrinks(s: Repo, op: Op, u: UserId, maxAttempts: nat)
    requires Inv(s) && IssuedUnder(s.challenges, maxAttempts) && FreshStep(s, op) && IssuedFor(s, op) != Some(u)
    ensures Room(Step(s, op).challenges, u, maxAttempts) + (if WrongCodeFor(s, op) == Some(u) then 1 else 0)
         <= Room(s.challenges, u, maxAttempts)
  {
    var t := Step(s, op);
    StepKeepsInv(s, op);
    StepOnlyCloses(s, op);
    NoNewChallenge(s, op, u);
    hide Inv, Step;
    RoomBounds(s, u, maxAttempts);
    if WrongCodeFor(s, op) == Some(u) {
      assert t == CountWrongCode(s, op.c) by { WrongCodeStep(s, op); }
      assert op.c in OpenChallenges(s.challenges, u) && op.c in OpenChallenges(t.challenges, u);
      RoomIs(s, u, maxAttempts, op.c);
      RoomIs(t, u, maxAttempts, op.c);
    } else if OpenChallenges(t.challenges, u) != {} {
      var c :| c in OpenChallenges(t.challenges, u);
      assert c in OpenChallenges(s.challenges, u);
      RoomIs(s, u, maxAttempts, c);
      RoomIs(t, u, maxAttempts, c);
    }
  }

  lemma WrongCodeStep(s: Repo, op: Op)
    requires WrongCodeFor(s, op).Some?
    ensures Step(s, op) == CountWrongCode(s, op.c)
  {
  }

  lemma NoNewChallenge(s: Repo, op: Op, u: UserId)
    requires Inv(s) && FreshStep(s, op) && IssuedFor(s, op) != Some(u)
    ensures forall c :: c in OpenChallenges(Step(s, op).challenges, u) ==> c in s.challenges.entries
  {
    hide Inv;
    KeysOnlyIssued(s, op);
  }

  lemma PolicyKept(s: Repo, op: Op, maxAttempts: nat, cooldown: int)
    requires Inv(s) && IssuedUnder(s.challenges, maxAttempts) && FreshStep(s, op) && Policy(op, maxAttempts, cooldown)
    ensures IssuedUnder(Step(s, op).challenges, maxAttempts)
  {
    StepOnlyCloses(s, op);
    KeysOnlyIssued(s, op);
    hide Inv;
  }

  /** Once the clock has passed the window nothing is counted any more. */
  lemma {:induction false} NothingAfter(s: Repo, ops: seq<Op>, u: UserId, lo: Time, hi: Time, from: Time)
    requires Clocked(ops, from) && hi < from
    ensures WrongBetween(s, ops, u, lo, hi) == 0
    decreases ops
  {
    if ops != [] {
      hide Step, WrongCodeFor;
      assert WrongCodeFor(s, ops[0]).Some? ==> ops[0].OpConsume? by { WrongCodeConsumes(s, ops[0]); }
      var next := if ops[0].OpConsume? then ops[0].now else if ops[0].OpIssue? then ops[0].challenge.issuedAt else from;
      NothingAfter(Step(s, ops[0]), ops[1..], u, lo, hi, next);
    }
  }

  lemma WrongCodeConsumes(s: Repo, op: Op)
    ensures WrongCodeFor(s, op).Some? ==> op.OpConsume?
  {
  }

  /** Inside the window every wrong code is paid for by the room left at its start or by an issue. */
  lemma {:induction false} WrongCodesPaid(
      s: Repo, ops: seq<Op>, u: UserId, lo: Time, hi: Time, from: Time, m: nat, cooldown: int)
    requires Inv(s) && FreshRun(s, ops) && IssuedUnder(s.challenges, m) && PolicyRun(ops, m, cooldown)
    requires Clocked(ops, from) && lo <= from
    ensures WrongBetween(s, ops, u, lo, hi) <= Room(s.challenges, u, m) + m * IssuedBetween(s, ops, u, lo, hi)
    decreases ops
  {
    hide Step, Inv, Room, IssuedUnder, WrongCodeFor, IssuedFor;
    RoomBounds(s, u, m);
    if ops != [] {
      var op, t := ops[0], Step(s, ops[0]);
      WrongCodeConsumes(s, op);
      IssuesOnlyIssue(s, op);
      assert Policy(op, m, cooldown);
      assert PolicyRun(ops[1..], m, cooldown);
      var next := if op.OpConsume? then op.now else if op.OpIssue? then op.challenge.issuedAt else from;
      if hi < next {
        NothingAfter(t, ops[1..], u, lo, hi, next);
      } else {
        StepKeepsInv(s, op);
        PolicyKept(s, op, m, cooldown);
        WrongCodesPaid(t, ops[1..], u, lo, hi, next, m, cooldown);
        var later := IssuedBetween(t, ops[1..], u, lo, hi);
        if IssuedFor(s, op) == Some(u) {
          IssueOpens(s, op, u, m);
          assert m * (later + 1) == m * later + m;
        } else {
          RoomShrinks(s, op, u, m);
        }
      }
    }
  }

  lemma IssuesOnlyIssue(s: Repo, op: Op)
    ensures IssuedFor(s, op).Some? ==> op.OpIssue?
  {
  }

  lemma {:induction false} WrongCodesBounded(
      s: Repo, ops: seq<Op>, u: UserId, lo: Time, hi: Time, from: Time, m: nat, cooldown: int)
    requires Inv(s) && FreshRun(s, ops) && IssuedUnder(s.challenges, m) && PolicyRun(ops, m, cooldown)
    requires Clocked(ops, from)
    ensures WrongBetween(s, ops, u, lo, hi) <= m + m * IssuedBetween(s, ops, u, lo, hi)
    decreases ops
  {
    hide Step, Inv, Room, IssuedUnder, WrongCodeFor, IssuedFor;
    if lo <= from {
      RoomBounds(s, u, m);
      WrongCodesPaid(s, ops, u, lo, hi, from, m, cooldown);
    } else if ops != [] {
      var op, t := ops[0], Step(s, ops[0]);
      WrongCodeConsumes(s, op);
      IssuesOnlyIssue(s, op);
      assert Policy(op, m, cooldown);
      assert PolicyRun(ops[1..], m, cooldown);
      var next := if op.OpConsume? then op.now else if op.OpIssue? then op.challenge.issuedAt else from;
      if next < lo {
        StepKeepsInv(s, op);
        PolicyKept(s, op, m, cooldown);
        WrongCodesBounded(t, ops[1..], u, lo, hi, next, m, cooldown);
      } else {
        RoomBounds(s, u, m);
        assert Clocked(ops, lo);
        WrongCodesPaid(s, ops, u, lo, hi, lo, m, cooldown);
      }
    }
  }

  /** Issuing to one account respects the cooldown, and nothing else moves the account's last issue. */
  lemma IssueSpacing(s: Repo, op: Op, u: UserId)
    ensures IssuedFor(s, op) == Some(u) ==>
      && (u in s.latestChallengeAt ==> op.challenge.issuedAt - s.latestChallengeAt[u] >= op.cooldown)
      && Step(s, op).latestChallengeAt == s.latestChallengeAt[u := op.challenge.issuedAt]
    ensures IssuedFor(s, op) != Some(u) ==>
      && (u in s.latestChallengeAt <==> u in Step(s, op).latestChallengeAt)
      && (u in s.latestChallengeAt ==> Step(s, op).latestChallengeAt[u] == s.latestChallengeAt[u])
  {
    hide Administer;
    match op
    case OpAdmin(v, now, request) =>
      if RequireAdministrator(s, v, now).Some? {
        AdministerKeepsKeys(RequireAdministrator(s, v, now).value, OwnerActs(s, v), request, now);
      }
    case _ =>
  }

  /** The earliest moment from `lo` on at which the account may get another challenge. */
  function Earliest(s: Repo, u: UserId, lo: Time, cooldown: int): Time {
    if u in s.latestChallengeAt then Max(lo, s.latestChallengeAt[u] + cooldown) else lo
  }

  lemma {:induction false} IssuesSpread(s: Repo, ops: seq<Op>, u: UserId, lo: Time, hi: Time, m: nat, cooldown: int)
    requires PolicyRun(ops, m, cooldown) && cooldown > 0
    requires IssuedBetween(s, ops, u, lo, hi) > 0
    ensures Earliest(s, u, lo, cooldown) + (IssuedBetween(s, ops, u, lo, hi) - 1) * cooldown <= hi
    decreases ops
  {
    hide Step, IssuedFor;
    var op, t := ops[0], Step(s, ops[0]);
    var later := IssuedBetween(t, ops[1..], u, lo, hi);
    IssueSpacing(s, op, u);
    IssuesOnlyIssue(s, op);
    assert Policy(op, m, cooldown);
    assert PolicyRun(ops[1..], m, cooldown);
    if later > 0 {
      IssuesSpread(t, ops[1..], u, lo, hi, m, cooldown);
      assert later * cooldown == (later - 1) * cooldown + cooldown;
    }
  }

  /**
   * In any window of length hi - lo, the wrong codes counted against one account are at most
   * maxAttempts * (floor((hi - lo) / cooldown) + 2), provided challenge identifiers are not reused,
   * one policy is in force and the clock does not run backwards.
   */
  lemma WrongCodeBudget(ops: seq<Op>, u: UserId, start: Time, lo: Time, hi: Time, maxAttempts: nat, cooldown: int)
    requires FreshRun(EMPTY, ops) && PolicyRun(ops, maxAttempts, cooldown) && Clocked(ops, start)
    requires cooldown > 0 && lo <= hi
    ensures WrongBetween(EMPTY, ops, u, lo, hi) <= maxAttempts * ((hi - lo) / cooldown + 2)
  {
    InvEmpty();
    hide Inv, FreshRun, PolicyRun, Clocked, WrongBetween, IssuedBetween;
    WrongCodesBounded(EMPTY, ops, u, lo, hi, start, maxAttempts, cooldown);
    var k := IssuedBetween(EMPTY, ops, u, lo, hi);
    if k > 0 {
      IssuesSpread(EMPTY, ops, u, lo, hi, maxAttempts, cooldown);
      QuotientBound(k - 1, cooldown, hi - lo);
    }
    ProductMonotone(maxAttempts, k + 1, (hi - lo) / cooldown + 2);
  }

  lemma QuotientBound(n: nat, d: int, x: int)
    requires d > 0 && n * d <= x
    ensures n <= x / d
  {
    assert x < (x / d + 1) * d;
    ProductCancel(d, n, x / d + 1);
  }

  lemma ProductCancel(d: int, a: int, b: int)
    requires d > 0 && a * d < b * d
    ensures a < b
  {
    if b <= a { ProductMonotone(d, b, a); }
  }

  lemma ProductMonotone(m: nat, a: int, b: int)
    requires a <= b
    ensures m * a <= m * b && a * m <= b * m
  {
  }

  // ---- One challenge ----

  function WrongCodesOf(s: Repo, ops: seq<Op>, c: ChallengeId): nat
    decreases ops
  {
    if ops == [] then 0
    else (if WrongCodeFor(s, ops[0]).Some? && ops[0].c == c then 1 else 0) + WrongCodesOf(Step(s, ops[0]), ops[1..], c)
  }

  predicate Spends(s: Repo, op: Op, c: ChallengeId) {
    && op.OpConsume? && op.c == c
    && var reply := ConsumeChallenge(s, c, op.candidate, op.now, op.session).1; reply.Ok? && reply.value.Authenticated?
  }

  function SessionsFrom(s: Repo, ops: seq<Op>, c: ChallengeId): nat
    decreases ops
  {
    if ops == [] then 0
    else (if Spends(s, ops[0], c) then 1 else 0) + SessionsFrom(Step(s, ops[0]), ops[1..], c)
  }

  lemma SpendUses(s: Repo, op: Op, c: ChallengeId)
    ensures Spends(s, op, c) ==> c in s.challenges.entries && s.challenges.entries[c].Open()
    ensures Spends(s, op, c) ==> c in Step(s, op).challenges.entries && Step(s, op).challenges.entries[c].usedAt.Some?
  {
  }

  /** A challenge opens at most one session, and none once it has been closed. */
  lemma {:induction false} OneSessionPerChallenge(s: Repo, ops: seq<Op>, c: ChallengeId)
    requires Inv(s) && FreshRun(s, ops)
    ensures SessionsFrom(s, ops, c) <= 1
    ensures c in s.challenges.entries && !s.challenges.entries[c].Open() ==> SessionsFrom(s, ops, c) == 0
    decreases ops
  {
    if ops != [] {
      hide Step, Inv, Spends, SessionsOnlyClose, PasskeysOnlyClose;
      var t := Step(s, ops[0]);
      StepKeepsInv(s, ops[0]);
      StepOnlyCloses(s, ops[0]);
      SpendUses(s, ops[0], c);
      OneSessionPerChallenge(t, ops[1..], c);
    }
  }

  /** A challenge counts every wrong code it was compared with, and never more than its limit. */
  lemma {:induction false} WrongCodesLimited(s: Repo, ops: seq<Op>, c: ChallengeId)
    requires Inv(s) && FreshRun(s, ops) && c in s.challenges.entries
    ensures c in Run(s, ops).challenges.entries
    ensures Run(s, ops).challenges.entries[c].attempts == s.challenges.entries[c].attempts + WrongCodesOf(s, ops, c)
    ensures s.challenges.entries[c].attempts + WrongCodesOf(s, ops, c) <= s.challenges.entries[c].input.maxAttempts
    decreases ops
  {
    hide Step, Inv, WrongCodeFor, SessionsOnlyClose, PasskeysOnlyClose;
    AttemptsBounded(s, c);
    if ops != [] {
      StepKeepsInv(s, ops[0]);
      StepOnlyCloses(s, ops[0]);
      AttemptsStep(s, ops[0], c);
      WrongCodesLimited(Step(s, ops[0]), ops[1..], c);
    }
  }

  lemma AttemptsBounded(s: Repo, c: ChallengeId)
    requires Inv(s) && c in s.challenges.entries
    ensures s.challenges.entries[c].attempts <= s.challenges.entries[c].input.maxAttempts
  {
  }

  ghost predicate AttemptsFollow(s: Repo, op: Op, c: ChallengeId)
    requires c in s.challenges.entries
  {
    && c in Step(s, op).challenges.entries
    && (WrongCodeFor(s, op).Some? ==> op.OpConsume?)
    && Step(s, op).challenges.entries[c].attempts
       == s.challenges.entries[c].attempts + if WrongCodeFor(s, op).Some? && op.c == c then 1 else 0
  }

  lemma ConsumeAttempts(s: Repo, op: Op, c: ChallengeId)
    requires c in s.challenges.entries && op.OpConsume?
    ensures AttemptsFollow(s, op, c)
  {
    hide OrderedMap.Valid, NewSession, ActiveAccount, Challenge.Open, SpendChallenge, InvalidateChallenges;
    if Answerable(s, op.c, op.now) {
      var u := s.challenges.entries[op.c].accountId;
      SpendingKeepsAttempts(s, op.c, op.now, NewSession(op.session, u, None), c);
    }
  }

  /** Spending or invalidating a challenge counts nothing and adds none. */
  lemma SpendingKeepsAttempts(s: Repo, spent: ChallengeId, now: Time, session: Session, c: ChallengeId)
    requires c in s.challenges.entries && spent in s.challenges.entries
    ensures
      var t := SpendChallenge(s, spent, now, session).challenges;
      var closed := InvalidateChallenges(s.challenges, {spent}, now);
      && t.entries.Keys == closed.entries.Keys == s.challenges.entries.Keys
      && t.entries[c].attempts == closed.entries[c].attempts == s.challenges.entries[c].attempts
  {
  }

  lemma AdminAttempts(s: Repo, op: Op, c: ChallengeId)
    requires c in s.challenges.entries && op.OpAdmin?
    ensures AttemptsFollow(s, op, c)
  {
    hide Administer;
    if RequireAdministrator(s, op.v, op.now).Some? {
      AdministerKeepsAttempts(RequireAdministrator(s, op.v, op.now).value, OwnerActs(s, op.v), op.request, op.now, c);
    }
  }

  lemma OtherAttempts(s: Repo, op: Op, c: ChallengeId)
    requires c in s.challenges.entries && FreshStep(s, op) && !op.OpConsume? && !op.OpAdmin?
    ensures AttemptsFollow(s, op, c)
  {
  }

  lemma AttemptsStep(s: Repo, op: Op, c: ChallengeId)
    requires FreshStep(s, op) && c in s.challenges.entries
    ensures AttemptsFollow(s, op, c)
  {
    hide AttemptsFollow;
    if op.OpConsume? { ConsumeAttempts(s, op, c); }
    else if op.OpAdmin? { AdminAttempts(s, op, c); }
    else { OtherAttempts(s, op, c); }
  }

  lemma AdministerKeepsAttempts(s: Repo, owner: bool, request: Administration, now: Time, c: ChallengeId)
    requires c in s.challenges.entries
    ensures c in Administer(s, owner, request, now).0.challenges.entries
    ensures Administer(s, owner, request, now).0.challenges.entries[c].attempts == s.challenges.entries[c].attempts
  {
  }
}
