/**
 * The two loops with which the authentication service charges several limits for one request: the
 * one behind the neutral challenge response, which goes on after a refusal, and the one that stops.
 */
module LimitLoops {
  import opened RateLimiters

  datatype Limit = Limit(key: Key, rule: Rule)

  ghost predicate DistinctKeys(limits: seq<Limit>) {
    forall i, j :: 0 <= i < j < |limits| ==> limits[i].key != limits[j].key
  }

  function Charge(attempts: Attempts, limit: Limit, now: Time): (Attempts, Decision) {
    LocalConsume(attempts, limit.key, now, limit.rule)
  }

  /** Every limit is charged; the request is allowed when all of them allow it. */
  function ChargeAll(attempts: Attempts, limits: seq<Limit>, now: Time): (Attempts, bool) {
    if limits == [] then (attempts, true)
    else
      var (before, allowed) := ChargeAll(attempts, limits[..|limits| - 1], now);
      var (after, decision) := Charge(before, limits[|limits| - 1], now);
      (after, allowed && decision.Allowed?)
  }

  /** Limits are charged in order until one refuses. */
  function ChargeUntilRefused(attempts: Attempts, limits: seq<Limit>, now: Time): (Attempts, bool)
    decreases limits
  {
    if limits == [] then (attempts, true)
    else
      var (after, decision) := Charge(attempts, limits[0], now);
      if decision.Limited? then (after, false) else ChargeUntilRefused(after, limits[1..], now)
  }

  method ConsumeNeutralChallengeRateLimits(limiter: LocalRateLimiter, limits: seq<Limit>, now: Time)
    returns (allowed: bool)
    modifies limiter
    ensures (limiter.attempts, allowed) == ChargeAll(old(limiter.attempts), limits, now)
  {
    allowed := true;
    for i := 0 to |limits|
      invariant (limiter.attempts, allowed) == ChargeAll(old(limiter.attempts), limits[..i], now)
    {
      assert limits[..i + 1][..i] == limits[..i];
      var decision := limiter.Consume(limits[i].key, now, limits[i].rule);
      if decision.Limited? { allowed := false; }
    }
    assert limits[..|limits|] == limits;
  }

  /** `false` stands for the rate-limited error. */
  method ConsumeRateLimits(limiter: LocalRateLimiter, limits: seq<Limit>, now: Time) returns (allowed: bool)
    modifies limiter
    ensures (limiter.attempts, allowed) == ChargeUntilRefused(old(limiter.attempts), limits, now)
  {
    for i := 0 to |limits|
      invariant ChargeUntilRefused(old(limiter.attempts), limits, now)
        == ChargeUntilRefused(limiter.attempts, limits[i..], now)
    {
      var decision := limiter.Consume(limits[i].key, now, limits[i].rule);
      if decision.Limited? { return false; }
    }
    allowed := true;
  }

  /** Charging a limit looks at, and changes, the attempts of its own key only. */
  lemma ChargeIsLocal(attempts: Attempts, others: Attempts, limit: Limit, now: Time, k: Key)
    ensures k != limit.key ==> AttemptsOf(Charge(attempts, limit, now).0, k) == AttemptsOf(attempts, k)
    ensures AttemptsOf(attempts, limit.key) == AttemptsOf(others, limit.key) ==>
      && Charge(attempts, limit, now).1 == Charge(others, limit, now).1
      && AttemptsOf(Charge(attempts, limit, now).0, limit.key) == AttemptsOf(Charge(others, limit, now).0, limit.key)
  {
  }

  lemma {:induction false} ChargeAllElsewhere(attempts: Attempts, limits: seq<Limit>, now: Time, k: Key)
    requires forall i :: 0 <= i < |limits| ==> limits[i].key != k
    ensures AttemptsOf(ChargeAll(attempts, limits, now).0, k) == AttemptsOf(attempts, k)
  {
    hide Charge, AttemptsOf;
    if limits != [] {
      var n := |limits| - 1;
      ChargeAllElsewhere(attempts, limits[..n], now, k);
      ChargeIsLocal(ChargeAll(attempts, limits[..n], now).0, attempts, limits[n], now, k);
    }
  }

  /**
   * Behind the neutral response every limit is charged and answers as if it were alone: a refusal
   * of one leaves no trace in the others.
   */
  lemma {:induction false} NeutralChargesEachAlone(attempts: Attempts, limits: seq<Limit>, now: Time)
    requires DistinctKeys(limits)
    ensures
      var r := ChargeAll(attempts, limits, now);
      && (forall i :: 0 <= i < |limits| ==>
            AttemptsOf(r.0, limits[i].key) == AttemptsOf(Charge(attempts, limits[i], now).0, limits[i].key))
      && (r.1 <==> forall i :: 0 <= i < |limits| ==> Charge(attempts, limits[i], now).1.Allowed?)
  {
    hide Charge, AttemptsOf;
    if limits != [] {
      var n := |limits| - 1;
      var before := ChargeAll(attempts, limits[..n], now).0;
      NeutralChargesEachAlone(attempts, limits[..n], now);
      ChargeAllElsewhere(attempts, limits[..n], now, limits[n].key);
      ChargeIsLocal(before, attempts, limits[n], now, limits[n].key);
      forall i | 0 <= i < n
        ensures AttemptsOf(ChargeAll(attempts, limits, now).0, limits[i].key)
          == AttemptsOf(Charge(attempts, limits[i], now).0, limits[i].key)
      {
        assert limits[..n][i] == limits[i];
        ChargeIsLocal(before, attempts, limits[n], now, limits[i].key);
      }
      assert forall i :: 0 <= i < n ==> limits[..n][i] == limits[i];
    }
  }

  /**
   * The throwing loop charges exactly the limits up to the first that refuses and leaves every
   * other key alone; it allows the request exactly when no limit refuses.
   */
  lemma {:induction false} ThrowingStopsAtRefusal(attempts: Attempts, limits: seq<Limit>, now: Time, stop: nat)
    requires DistinctKeys(limits) && stop <= |limits|
    requires forall i :: 0 <= i < stop ==> Charge(attempts, limits[i], now).1.Allowed?
    requires stop < |limits| ==> Charge(attempts, limits[stop], now).1.Limited?
    ensures
      var r := ChargeUntilRefused(attempts, limits, now);
      && (r.1 <==> stop == |limits|)
      && (forall i :: 0 <= i < |limits| && i <= stop ==>
            AttemptsOf(r.0, limits[i].key) == AttemptsOf(Charge(attempts, limits[i], now).0, limits[i].key))
      && (forall k :: (forall i :: 0 <= i < |limits| && i <= stop ==> limits[i].key != k) ==>
            AttemptsOf(r.0, k) == AttemptsOf(attempts, k))
    decreases limits
  {
    hide Charge, AttemptsOf;
    if limits != [] {
      var after, rest := Charge(attempts, limits[0], now).0, limits[1..];
      forall k | k != limits[0].key ensures AttemptsOf(after, k) == AttemptsOf(attempts, k) {
        ChargeIsLocal(attempts, attempts, limits[0], now, k);
      }
      if stop > 0 {
        forall i | 0 <= i < |rest|
          ensures rest[i] == limits[i + 1] && rest[i].key != limits[0].key
          ensures Charge(after, rest[i], now).1 == Charge(attempts, rest[i], now).1
          ensures AttemptsOf(Charge(after, rest[i], now).0, rest[i].key)
            == AttemptsOf(Charge(attempts, rest[i], now).0, rest[i].key)
        {
          ChargeIsLocal(after, attempts, rest[i], now, rest[i].key);
        }
        ThrowingStopsAtRefusal(after, rest, now, stop - 1);
        StoppedElsewhere(attempts, limits, now, stop, after, rest);
      }
    }
  }

  lemma StoppedElsewhere(
      attempts: Attempts, limits: seq<Limit>, now: Time, stop: nat, after: Attempts, rest: seq<Limit>)
    requires limits != [] && rest == limits[1..] && 0 < stop <= |limits| && DistinctKeys(limits)
    requires forall k :: k != limits[0].key ==> AttemptsOf(after, k) == AttemptsOf(attempts, k)
    requires forall k :: (forall i :: 0 <= i < |rest| && i <= stop - 1 ==> rest[i].key != k) ==>
      AttemptsOf(ChargeUntilRefused(after, rest, now).0, k) == AttemptsOf(after, k)
    ensures AttemptsOf(ChargeUntilRefused(after, rest, now).0, limits[0].key) == AttemptsOf(after, limits[0].key)
    ensures forall k :: (forall i :: 0 <= i < |limits| && i <= stop ==> limits[i].key != k) ==>
      AttemptsOf(ChargeUntilRefused(after, rest, now).0, k) == AttemptsOf(attempts, k)
  {
    hide AttemptsOf, ChargeUntilRefused;
    forall k | forall i :: 0 <= i < |limits| && i <= stop ==> limits[i].key != k
      ensures AttemptsOf(ChargeUntilRefused(after, rest, now).0, k) == AttemptsOf(attempts, k)
    {
      assert k != limits[0].key;
      assert forall i :: 0 <= i < |rest| && i <= stop - 1 ==> rest[i] == limits[i + 1];
    }
  }
}
