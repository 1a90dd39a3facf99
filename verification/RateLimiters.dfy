/**
 * The sliding-window rate limiters: the in-memory list, the Redis sorted set behind a Lua script,
 * and the reference both are measured against, a log that is never pruned.
 */
module RateLimiters {
  import opened Collections

  type Key = nat
  type Member = nat
  type Time = int

  datatype Rule = Rule(limit: nat, window: nat)
  datatype Decision = Allowed | Limited

  // ---- The in-memory limiter ----

  function Recent(attempts: seq<Time>, cutoff: Time): seq<Time> {
    if attempts == [] then []
    else (if attempts[0] > cutoff then [attempts[0]] else []) + Recent(attempts[1..], cutoff)
  }

  type Attempts = map<Key, seq<Time>>

  function AttemptsOf(attempts: Attempts, key: Key): seq<Time> {
    if key in attempts then attempts[key] else []
  }

  function LocalConsume(attempts: Attempts, key: Key, now: Time, rule: Rule): (Attempts, Decision) {
    var recent := Recent(AttemptsOf(attempts, key), now - rule.window);
    if |recent| >= rule.limit then (attempts[key := recent], Limited)
    else (attempts[key := recent + [now]], Allowed)
  }

  class LocalRateLimiter {
    var attempts: Attempts

    constructor ()
      ensures attempts == map[]
    {
      attempts := map[];
    }

    method Consume(key: Key, now: Time, rule: Rule) returns (decision: Decision)
      modifies this
      ensures (attempts, decision) == LocalConsume(old(attempts), key, now, rule)
    {
      var cutoff := now - rule.window;
      var recent := Recent(if key in attempts then attempts[key] else [], cutoff);
      if |recent| >= rule.limit {
        attempts := attempts[key := recent];
        return Limited;
      }
      recent := recent + [now];
      attempts := attempts[key := recent];
      decision := Allowed;
    }
  }

  // ---- The Redis limiter ----

  /** A sorted set (member to score) with the server time at which the whole key expires. */
  datatype Entry = Entry(scores: map<Member, Time>, expiresAt: Time)
  type Keyspace = map<Key, Entry>

  /** A call: the caller's clock, the server's clock, a new member, and whether the server has dropped the key. */
  datatype Call = Call(key: Key, now: Time, server: Time, member: Member, dropped: bool)

  function Scores(keys: Keyspace, key: Key): map<Member, Time> {
    if key in keys then keys[key].scores else map[]
  }

  function Above(scores: map<Member, Time>, cutoff: Time): map<Member, Time> {
    map m | m in scores && scores[m] > cutoff :: scores[m]
  }

  function RedisConsume(keys: Keyspace, call: Call, rule: Rule): (Keyspace, Decision) {
    var kept := Above(if call.dropped then map[] else Scores(keys, call.key), call.now - rule.window);
    if |kept| >= rule.limit then
      (if kept == map[] then keys - {call.key} else keys[call.key := Entry(kept, call.server + rule.window)], Limited)
    else
      (keys[call.key := Entry(kept[call.member := call.now], call.server + rule.window)], Allowed)
  }

  /**
   * A call touches its own key only, and a key that holds anything after it expires one window after
   * the server's time of the call; a key that holds nothing is not there.
   */
  lemma KeysExpireAWindowLater(keys: Keyspace, call: Call, rule: Rule)
    ensures
      var r := RedisConsume(keys, call, rule).0;
      && (forall k :: k != call.key ==> (k in r <==> k in keys) && (k in keys ==> r[k] == keys[k]))
      && (call.key in r ==> r[call.key].expiresAt == call.server + rule.window && r[call.key].scores != map[])
  {
    if call.key in RedisConsume(keys, call, rule).0 && RedisConsume(keys, call, rule).1.Allowed? {
      assert call.member in RedisConsume(keys, call, rule).0[call.key].scores;
    }
  }

  /** The three Redis commands of the script. A sorted set that becomes empty is removed with its key. */
  function ZRemRangeByScore(keys: Keyspace, key: Key, upTo: Time): Keyspace {
    if key !in keys then keys
    else
      var kept := Above(keys[key].scores, upTo);
      if kept == map[] then keys - {key} else keys[key := Entry(kept, keys[key].expiresAt)]
  }

  function ZAdd(keys: Keyspace, key: Key, score: Time, member: Member): Keyspace {
    keys[key := Entry(Scores(keys, key)[member := score], if key in keys then keys[key].expiresAt else score)]
  }

  function PExpire(keys: Keyspace, key: Key, at: Time): Keyspace {
    if key in keys then keys[key := Entry(keys[key].scores, at)] else keys
  }

  lemma PruneLeaves(keys: Keyspace, key: Key, upTo: Time)
    ensures
      var r := ZRemRangeByScore(keys, key, upTo);
      && Scores(r, key) == Above(Scores(keys, key), upTo)
      && (key in r <==> Above(Scores(keys, key), upTo) != map[])
      && r - {key} == keys - {key}
  {
    assert Above(map[], upTo) == map[];
  }

  lemma SameElsewhere(a: Keyspace, b: Keyspace, key: Key, e: Entry)
    requires a - {key} == b - {key}
    ensures a[key := e] == b[key := e]
  {
    assert a[key := e] == (a - {key})[key := e];
    assert b[key := e] == (b - {key})[key := e];
  }

  lemma AddThenExpire(pruned: Keyspace, keys: Keyspace, key: Key, now: Time, member: Member, at: Time)
    requires pruned - {key} == keys - {key}
    ensures PExpire(ZAdd(pruned, key, now, member), key, at)
      == keys[key := Entry(Scores(pruned, key)[member := now], at)]
  {
    var e := Entry(Scores(pruned, key)[member := now], at);
    var added := ZAdd(pruned, key, now, member);
    assert added - {key} == pruned - {key};
    SameElsewhere(added, keys, key, e);
  }

  lemma OnlyExpire(pruned: Keyspace, keys: Keyspace, key: Key, at: Time)
    requires pruned - {key} == keys - {key}
    ensures PExpire(pruned, key, at) == if key in pruned then keys[key := Entry(Scores(pruned, key), at)]
      else keys - {key}
  {
    if key in pruned {
      SameElsewhere(pruned, keys, key, Entry(Scores(pruned, key), at));
    } else {
      assert pruned - {key} == pruned;
    }
  }

  lemma ScriptLimits(keys: Keyspace, call: Call, rule: Rule, kept: map<Member, Time>, pruned: Keyspace)
    requires kept == Above(if call.dropped then map[] else Scores(keys, call.key), call.now - rule.window)
    requires pruned - {call.key} == keys - {call.key} && Scores(pruned, call.key) == kept
    requires call.key in pruned <==> kept != map[]
    ensures |kept| >= rule.limit ==>
      RedisConsume(keys, call, rule) == (PExpire(pruned, call.key, call.server + rule.window), Limited)
    ensures |kept| < rule.limit ==>
      RedisConsume(keys, call, rule)
      == (PExpire(ZAdd(pruned, call.key, call.now, call.member), call.key, call.server + rule.window), Allowed)
  {
    hide Above, ZAdd, PExpire;
    OnlyExpire(pruned, keys, call.key, call.server + rule.window);
    AddThenExpire(pruned, keys, call.key, call.now, call.member, call.server + rule.window);
  }

  class RedisServer {
    var keys: Keyspace

    /** The script, run as one step; `call.dropped` says that expiry removed the key before it. */
    method ConsumeScript(call: Call, rule: Rule) returns (decision: Decision)
      modifies this
      ensures (keys, decision) == RedisConsume(old(keys), call, rule)
    {
      hide ZRemRangeByScore, ZAdd, PExpire, Above, RedisConsume;
      if call.dropped {
        keys := keys - {call.key};
      }
      PruneLeaves(keys, call.key, call.now - rule.window);
      assert keys - {call.key} == old(keys) - {call.key};
      keys := ZRemRangeByScore(keys, call.key, call.now - rule.window);
      ScriptLimits(old(keys), call, rule, Scores(keys, call.key), keys);
      var count := |Scores(keys, call.key)|;
      if count >= rule.limit {
        keys := PExpire(keys, call.key, call.server + rule.window);
        return Limited;
      }
      keys := ZAdd(keys, call.key, call.now, call.member);
      keys := PExpire(keys, call.key, call.server + rule.window);
      decision := Allowed;
    }
  }

  // ---- The reference: every allowed attempt, never pruned ----

  type Log = seq<(Key, Time)>

  function CountBetween(log: Log, key: Key, after: Time, upTo: Time): nat {
    if log == [] then 0
    else
      var last := log[|log| - 1];
      CountBetween(log[..|log| - 1], key, after, upTo)
      + if last.0 == key && after < last.1 <= upTo then 1 else 0
  }

  function CountSince(log: Log, key: Key, after: Time): nat {
    if log == [] then 0
    else
      var last := log[|log| - 1];
      CountSince(log[..|log| - 1], key, after) + if last.0 == key && after < last.1 then 1 else 0
  }

  function LogConsume(log: Log, key: Key, now: Time, rule: Rule): (Log, Decision) {
    if CountSince(log, key, now - rule.window) >= rule.limit then (log, Limited) else (log + [(key, now)], Allowed)
  }

  // ---- Runs over many keys, each under its own fixed rule ----

  type Rules = Key -> Rule

  function LocalRun(attempts: Attempts, calls: seq<Call>, rules: Rules): seq<Decision>
    decreases calls
  {
    if calls == [] then []
    else
      var (next, d) := LocalConsume(attempts, calls[0].key, calls[0].now, rules(calls[0].key));
      [d] + LocalRun(next, calls[1..], rules)
  }

  function RedisRun(keys: Keyspace, calls: seq<Call>, rules: Rules): seq<Decision>
    decreases calls
  {
    if calls == [] then []
    else
      var (next, d) := RedisConsume(keys, calls[0], rules(calls[0].key));
      [d] + RedisRun(next, calls[1..], rules)
  }

  function LogRun(log: Log, calls: seq<Call>, rules: Rules): seq<Decision>
    decreases calls
  {
    if calls == [] then []
    else
      var (next, d) := LogConsume(log, calls[0].key, calls[0].now, rules(calls[0].key));
      [d] + LogRun(next, calls[1..], rules)
  }

  function LogAfter(log: Log, calls: seq<Call>, rules: Rules): Log
    decreases calls
  {
    if calls == [] then log
    else LogAfter(LogConsume(log, calls[0].key, calls[0].now, rules(calls[0].key)).0, calls[1..], rules)
  }

  /** When each key was last charged; keys that never were are not listed. */
  type Clocks = map<Key, Time>

  /** Nothing relates the clocks of different keys: one `now` may be charged to several across awaits. */
  predicate Ticks(clocks: Clocks, call: Call) {
    call.key in clocks ==> clocks[call.key] <= call.now
  }

  /** For each key by itself the callers' clock does not run backwards. */
  ghost predicate Clocked(calls: seq<Call>, clocks: Clocks)
    decreases calls
  {
    calls == [] || (Ticks(clocks, calls[0]) && Clocked(calls[1..], clocks[calls[0].key := calls[0].now]))
  }

  /** A cutoff that a further call on the key can still ask. */
  predicate MayAsk(clocks: Clocks, k: Key, rules: Rules, cutoff: Time) {
    k in clocks ==> clocks[k] - rules(k).window <= cutoff
  }

  lemma {:induction false} RecentTwice(attempts: seq<Time>, c: Time, d: Time)
    requires c <= d
    ensures Recent(Recent(attempts, c), d) == Recent(attempts, d)
  {
    if attempts != [] {
      RecentTwice(attempts[1..], c, d);
      var rest := Recent(attempts[1..], c);
      if attempts[0] > c {
        assert ([attempts[0]] + rest)[1..] == rest;
      } else {
        assert [] + rest == rest;
      }
    }
  }

  lemma {:induction false} RecentAppend(attempts: seq<Time>, t: Time, c: Time)
    ensures Recent(attempts + [t], c) == Recent(attempts, c) + if t > c then [t] else []
  {
    if attempts != [] {
      RecentAppend(attempts[1..], t, c);
      assert (attempts + [t])[1..] == attempts[1..] + [t];
    }
  }

  lemma CountAppend(log: Log, key: Key, t: Time, k: Key, c: Time, d: Time)
    ensures CountSince(log + [(key, t)], k, c) == CountSince(log, k, c) + if key == k && c < t then 1 else 0
    ensures CountBetween(log + [(key, t)], k, c, d) == CountBetween(log, k, c, d) + if key == k
      && c < t <= d then 1 else 0
  {
    assert (log + [(key, t)])[..|log|] == log;
  }

  /** The pruned lists answer every cutoff that can still be asked as the full log does. */
  ghost predicate ListsAgree(attempts: Attempts, log: Log, rules: Rules, clocks: Clocks) {
    forall k, c :: MayAsk(clocks, k, rules, c) ==> |Recent(AttemptsOf(attempts, k), c)| == CountSince(log, k, c)
  }

  lemma ListsStep(attempts: Attempts, log: Log, rules: Rules, clocks: Clocks, call: Call)
    requires ListsAgree(attempts, log, rules, clocks) && Ticks(clocks, call)
    ensures
      var key, now := call.key, call.now;
      var l, r := LocalConsume(attempts, key, now, rules(key)), LogConsume(log, key, now, rules(key));
      l.1 == r.1 && ListsAgree(l.0, r.0, rules, clocks[key := now])
  {
    var key, now := call.key, call.now;
    var l, r := LocalConsume(attempts, key, now, rules(key)), LogConsume(log, key, now, rules(key));
    var cutoff := now - rules(key).window;
    assert MayAsk(clocks, key, rules, cutoff);
    forall k, c | MayAsk(clocks[key := now], k, rules, c)
      ensures |Recent(AttemptsOf(l.0, k), c)| == CountSince(r.0, k, c)
    {
      CountAppend(log, key, now, k, c, c);
      assert MayAsk(clocks, k, rules, c);
      if k == key {
        RecentTwice(AttemptsOf(attempts, k), cutoff, c);
        RecentAppend(Recent(AttemptsOf(attempts, k), cutoff), now, c);
      }
    }
  }

  lemma {:induction false} LocalAgrees(attempts: Attempts, log: Log, calls: seq<Call>, rules: Rules, clocks: Clocks)
    requires ListsAgree(attempts, log, rules, clocks) && Clocked(calls, clocks)
    ensures LocalRun(attempts, calls, rules) == LogRun(log, calls, rules)
    decreases calls
  {
    if calls != [] {
      var call := calls[0];
      ListsStep(attempts, log, rules, clocks, call);
      LocalAgrees(LocalConsume(attempts, call.key, call.now, rules(call.key)).0,
                  LogConsume(log, call.key, call.now, rules(call.key)).0, calls[1..], rules,
                  clocks[call.key := call.now]);
    }
  }

  /** Pruning never changes a decision: the in-memory limiter decides as the full log would. */
  lemma LocalIsExact(calls: seq<Call>, rules: Rules)
    requires Clocked(calls, map[])
    ensures LocalRun(map[], calls, rules) == LogRun([], calls, rules)
  {
    LocalAgrees(map[], [], calls, rules, map[]);
  }

  /** No interval as long as a key's window holds more allowed attempts than the key's limit. */
  ghost predicate WithinLimits(log: Log, rules: Rules) {
    forall k, x, y :: y - x <= rules(k).window ==> CountBetween(log, k, x, y) <= rules(k).limit
  }

  lemma {:induction false} BetweenWithinSince(log: Log, k: Key, x: Time, upTo: Time, c: Time)
    requires c <= x
    ensures CountBetween(log, k, x, upTo) <= CountSince(log, k, c)
  {
    if log != [] {
      BetweenWithinSince(log[..|log| - 1], k, x, upTo, c);
    }
  }

  lemma {:induction false} WindowsHold(log: Log, calls: seq<Call>, rules: Rules)
    requires WithinLimits(log, rules)
    ensures WithinLimits(LogAfter(log, calls, rules), rules)
    decreases calls
  {
    if calls != [] {
      var call := calls[0];
      var next := LogConsume(log, call.key, call.now, rules(call.key)).0;
      forall k, x, y | y - x <= rules(k).window ensures CountBetween(next, k, x, y) <= rules(k).limit {
        CountAppend(log, call.key, call.now, k, x, y);
        if k == call.key && x < call.now <= y {
          BetweenWithinSince(log, k, x, y, call.now - rules(k).window);
        }
      }
      WindowsHold(next, calls[1..], rules);
    }
  }

  /**
   * Whatever the order of the clock, no half-open interval (x, y] as long as the window ever holds
   * more than `limit` attempts that the full log allowed.
   */
  lemma NoWindowOverflows(calls: seq<Call>, rules: Rules, key: Key, x: Time, y: Time)
    requires y - x <= rules(key).window
    ensures CountBetween(LogAfter([], calls, rules), key, x, y) <= rules(key).limit
  {
    WindowsHold([], calls, rules);
  }

  // ---- Redis ----

  /**
   * What the Redis limiter can count on: for each key the callers' clock does not run backwards,
   * members are new, and the server drops a key only when it has expired by the server's own clock. Nothing relates
   * the two clocks.
   */
  ghost predicate Orderly(keys: Keyspace, calls: seq<Call>, rules: Rules, clocks: Clocks)
    decreases calls
  {
    calls == [] ||
    (var call := calls[0];
     && Ticks(clocks, call)
     && call.member !in Scores(keys, call.key)
     && (call.dropped ==> call.key in keys && keys[call.key].expiresAt <= call.server)
     && Orderly(RedisConsume(keys, call, rules(call.key)).0, calls[1..], rules, clocks[call.key := call.now]))
  }

  /** A drop forgets nothing the window still covers. */
  predicate ForgetsNothing(keys: Keyspace, call: Call, rules: Rules) {
    call.dropped ==> Above(Scores(keys, call.key), call.now - rules(call.key).window) == map[]
  }

  /** Whenever a key is dropped, its newest stored attempt is at least a window old for the caller. */
  predicate Harmless(keys: Keyspace, calls: seq<Call>, rules: Rules)
    decreases calls
  {
    calls == [] ||
    (ForgetsNothing(keys, calls[0], rules)
      && Harmless(RedisConsume(keys, calls[0], rules(calls[0].key)).0, calls[1..], rules))
  }

  /**
   * One sorted set and the log answer every cutoff that can still be asked alike; a set that holds
   * anything has a limit.
   */
  ghost predicate SetAgrees(keys: Keyspace, log: Log, k: Key, rules: Rules, clocks: Clocks) {
    && (forall c :: MayAsk(clocks, k, rules, c) ==> |Above(Scores(keys, k), c)| == CountSince(log, k, c))
    && (rules(k).limit == 0 ==> Scores(keys, k) == map[])
  }

  ghost predicate SetsAgree(keys: Keyspace, log: Log, rules: Rules, clocks: Clocks) {
    && (forall k :: SetAgrees(keys, log, k, rules, clocks))
    && (forall i :: 0 <= i < |log| ==> log[i].0 in clocks && log[i].1 <= clocks[log[i].0])
  }

  lemma AboveTwice(scores: map<Member, Time>, c: Time, d: Time)
    requires c <= d
    ensures Above(Above(scores, c), d) == Above(scores, d)
  {
  }

  lemma AboveAdd(scores: map<Member, Time>, m: Member, t: Time, c: Time)
    requires m !in scores
    ensures |Above(scores[m := t], c)| == |Above(scores, c)| + if t > c then 1 else 0
  {
    if t > c {
      assert Above(scores[m := t], c) == Above(scores, c)[m := t];
    } else {
      assert Above(scores[m := t], c) == Above(scores, c);
    }
  }

  lemma {:induction false} NothingSinceLast(log: Log, k: Key, c: Time)
    requires forall i :: 0 <= i < |log| && log[i].0 == k ==> log[i].1 <= c
    ensures CountSince(log, k, c) == 0
  {
    if log != [] { NothingSinceLast(log[..|log| - 1], k, c); }
  }

  /** What the script starts from once a drop has forgotten nothing. */
  function Found(keys: Keyspace, call: Call): map<Member, Time> {
    if call.dropped then map[] else Scores(keys, call.key)
  }

  lemma FoundAgrees(keys: Keyspace, log: Log, call: Call, rules: Rules, clocks: Clocks, c: Time)
    requires SetAgrees(keys, log, call.key, rules, clocks) && ForgetsNothing(keys, call, rules)
    requires Ticks(clocks, call) && c >= call.now - rules(call.key).window
    ensures |Above(Found(keys, call), c)| == CountSince(log, call.key, c)
  {
    var cutoff := call.now - rules(call.key).window;
    assert MayAsk(clocks, call.key, rules, c);
    AboveTwice(Scores(keys, call.key), cutoff, c);
    assert Above(map[], c) == map[];
  }

  /** The set after a call: what the window covers, and the attempt if it was allowed. */
  lemma ConsumedScores(keys: Keyspace, call: Call, rule: Rule)
    ensures
      var kept := Above(Found(keys, call), call.now - rule.window);
      var r := RedisConsume(keys, call, rule);
      && (r.1.Limited? <==> |kept| >= rule.limit)
      && Scores(r.0, call.key) == (if r.1.Limited? then kept else kept[call.member := call.now])
      && (call.member !in Scores(keys, call.key) ==> call.member !in kept)
  {
  }

  lemma ConsumedCounts(keys: Keyspace, log: Log, call: Call, rule: Rule, c: Time)
    requires c >= call.now - rule.window && call.member !in Scores(keys, call.key)
    requires |Above(Found(keys, call), call.now - rule.window)| == CountSince(log, call.key, call.now - rule.window)
    requires |Above(Found(keys, call), c)| == CountSince(log, call.key, c)
    ensures
      var r, l := RedisConsume(keys, call, rule), LogConsume(log, call.key, call.now, rule);
      && r.1 == l.1
      && |Above(Scores(r.0, call.key), c)| == CountSince(l.0, call.key, c)
  {
    hide RedisConsume, Above, CountSince;
    var kept := Above(Found(keys, call), call.now - rule.window);
    ConsumedScores(keys, call, rule);
    AboveTwice(Found(keys, call), call.now - rule.window, c);
    AboveAdd(kept, call.member, call.now, c);
    CountAppend(log, call.key, call.now, call.key, c, c);
  }

  /** The key the call is about, after a call that forgets nothing. */
  lemma ConsumedSetAgrees(keys: Keyspace, log: Log, call: Call, rules: Rules, clocks: Clocks)
    requires SetAgrees(keys, log, call.key, rules, clocks) && ForgetsNothing(keys, call, rules)
    requires Ticks(clocks, call) && call.member !in Scores(keys, call.key)
    ensures
      var rule := rules(call.key);
      var r, l := RedisConsume(keys, call, rule), LogConsume(log, call.key, call.now, rule);
      r.1 == l.1 && SetAgrees(r.0, l.0, call.key, rules, clocks[call.key := call.now])
  {
    hide RedisConsume, LogConsume, Above, Found, ForgetsNothing, Ticks, Scores, CountSince;
    var rule, next := rules(call.key), clocks[call.key := call.now];
    var r, l := RedisConsume(keys, call, rule), LogConsume(log, call.key, call.now, rule);
    FoundAgrees(keys, log, call, rules, clocks, call.now - rule.window);
    ConsumedCounts(keys, log, call, rule, call.now - rule.window);
    forall c | MayAsk(next, call.key, rules, c)
      ensures |Above(Scores(r.0, call.key), c)| == CountSince(l.0, call.key, c)
    {
      FoundAgrees(keys, log, call, rules, clocks, c);
      ConsumedCounts(keys, log, call, rule, c);
    }
    NoLimitStoresNothing(keys, call, rule);
  }

  lemma NoLimitStoresNothing(keys: Keyspace, call: Call, rule: Rule)
    ensures rule.limit == 0 && Scores(keys, call.key) == map[] ==>
      Scores(RedisConsume(keys, call, rule).0, call.key) == map[]
  {
  }

  lemma OtherSetAgrees(keys: Keyspace, log: Log, call: Call, k: Key, rules: Rules, clocks: Clocks)
    requires SetAgrees(keys, log, k, rules, clocks) && k != call.key
    ensures
      var r, l := RedisConsume(keys, call, rules(call.key)), LogConsume(log, call.key, call.now, rules(call.key));
      SetAgrees(r.0, l.0, k, rules, clocks[call.key := call.now])
  {
    hide RedisConsume, Above, CountSince, Scores;
    var r, l := RedisConsume(keys, call, rules(call.key)), LogConsume(log, call.key, call.now, rules(call.key));
    OtherScores(keys, call, rules(call.key), k);
    forall c | MayAsk(clocks[call.key := call.now], k, rules, c)
      ensures |Above(Scores(r.0, k), c)| == CountSince(l.0, k, c)
    {
      CountAppend(log, call.key, call.now, k, c, c);
      assert MayAsk(clocks, k, rules, c);
    }
  }

  lemma OtherScores(keys: Keyspace, call: Call, rule: Rule, k: Key)
    requires k != call.key
    ensures Scores(RedisConsume(keys, call, rule).0, k) == Scores(keys, k)
  {
  }

  lemma RedisStep(keys: Keyspace, log: Log, rules: Rules, call: Call, clocks: Clocks)
    requires SetsAgree(keys, log, rules, clocks) && ForgetsNothing(keys, call, rules)
    requires Ticks(clocks, call) && call.member !in Scores(keys, call.key)
    ensures
      var r, l := RedisConsume(keys, call, rules(call.key)), LogConsume(log, call.key, call.now, rules(call.key));
      r.1 == l.1 && SetsAgree(r.0, l.0, rules, clocks[call.key := call.now])
  {
    var r, l := RedisConsume(keys, call, rules(call.key)), LogConsume(log, call.key, call.now, rules(call.key));
    hide SetAgrees, RedisConsume, ForgetsNothing;
    ConsumedSetAgrees(keys, log, call, rules, clocks);
    var next := clocks[call.key := call.now];
    forall k | k != call.key ensures SetAgrees(r.0, l.0, k, rules, next) {
      OtherSetAgrees(keys, log, call, k, rules, clocks);
    }
  }

  lemma {:induction false} RedisAgrees(keys: Keyspace, log: Log, calls: seq<Call>, rules: Rules, clocks: Clocks)
    requires SetsAgree(keys, log, rules, clocks) && Orderly(keys, calls, rules, clocks) && Harmless(keys, calls, rules)
    ensures RedisRun(keys, calls, rules) == LogRun(log, calls, rules)
    decreases calls
  {
    hide SetsAgree, ForgetsNothing, RedisConsume;
    if calls != [] {
      var call := calls[0];
      RedisStep(keys, log, rules, call, clocks);
      RedisAgrees(RedisConsume(keys, call, rules(call.key)).0, LogConsume(log, call.key, call.now, rules(call.key)).0,
                  calls[1..], rules, clocks[call.key := call.now]);
    }
  }

  lemma {:induction false} OrderlyIsClocked(keys: Keyspace, calls: seq<Call>, rules: Rules, clocks: Clocks)
    requires Orderly(keys, calls, rules, clocks)
    ensures Clocked(calls, clocks)
    decreases calls
  {
    hide RedisConsume;
    if calls != [] {
      var call := calls[0];
      OrderlyIsClocked(RedisConsume(keys, call, rules(call.key)).0, calls[1..], rules, clocks[call.key := call.now]);
    }
  }

  lemma NothingAgrees(rules: Rules)
    ensures SetsAgree(map[], [], rules, map[])
  {
    assert forall c :: Above(map[], c) == map[];
  }

  /**
   * The script decides as the full log and as the in-memory limiter in every run in which no drop
   * forgets an attempt that the window still covers.
   */
  lemma RedisIsExact(calls: seq<Call>, rules: Rules)
    requires Orderly(map[], calls, rules, map[]) && Harmless(map[], calls, rules)
    ensures RedisRun(map[], calls, rules) == LogRun([], calls, rules) == LocalRun(map[], calls, rules)
  {
    NothingAgrees(rules);
    RedisAgrees(map[], [], calls, rules, map[]);
    OrderlyIsClocked(map[], calls, rules, map[]);
    LocalIsExact(calls, rules);
  }

  /** The attempts that the decisions allow. */
  function Granted(calls: seq<Call>, decisions: seq<Decision>): Log
    requires |calls| == |decisions|
    decreases calls
  {
    if calls == [] then []
    else (if decisions[0].Allowed? then [(calls[0].key, calls[0].now)] else []) + Granted(calls[1..], decisions[1..])
  }

  lemma {:induction false} LogHoldsTheGranted(log: Log, calls: seq<Call>, rules: Rules)
    ensures |LogRun(log, calls, rules)| == |calls|
    ensures LogAfter(log, calls, rules) == log + Granted(calls, LogRun(log, calls, rules))
    decreases calls
  {
    hide LogConsume;
    if calls != [] {
      var call := calls[0];
      var l := LogConsume(log, call.key, call.now, rules(call.key));
      LogHoldsTheGranted(l.0, calls[1..], rules);
      assert LogRun(log, calls, rules) == [l.1] + LogRun(l.0, calls[1..], rules);
      assert LogRun(log, calls, rules)[1..] == LogRun(l.0, calls[1..], rules);
      assert l.0 == log + if l.1.Allowed? then [(call.key, call.now)] else [] by { LogConsumed(log, call, rules); }
    }
  }

  lemma LogConsumed(log: Log, call: Call, rules: Rules)
    ensures
      var l := LogConsume(log, call.key, call.now, rules(call.key));
      l.0 == log + if l.1.Allowed? then [(call.key, call.now)] else []
  {
  }

  ghost predicate KeepsWindows(calls: seq<Call>, decisions: seq<Decision>, rules: Rules) {
    |decisions| == |calls| && WithinLimits(Granted(calls, decisions), rules)
  }

  /**
   * What the limiters themselves allow never overfills a window: the in-memory one whenever no key's
   * clock runs backwards, the script whenever besides no drop forgets what the window covers.
   */
  lemma LimitersKeepWindows(calls: seq<Call>, rules: Rules)
    ensures Clocked(calls, map[]) ==> KeepsWindows(calls, LocalRun(map[], calls, rules), rules)
    ensures Orderly(map[], calls, rules, map[]) && Harmless(map[], calls, rules) ==>
      KeepsWindows(calls, RedisRun(map[], calls, rules), rules)
  {
    WindowsHold([], calls, rules);
    LogHoldsTheGranted([], calls, rules);
    assert [] + Granted(calls, LogRun([], calls, rules)) == Granted(calls, LogRun([], calls, rules));
    if Clocked(calls, map[]) { LocalIsExact(calls, rules); }
    if Orderly(map[], calls, rules, map[]) && Harmless(map[], calls, rules) { RedisIsExact(calls, rules); }
  }

  // ---- Who is refused ----

  /** The earlier calls on the key that were allowed and lie after the cutoff. */
  function AllowedSince(calls: seq<Call>, decisions: seq<Decision>, n: nat, key: Key, cutoff: Time): set<nat>
    requires n <= |calls| && n <= |decisions|
  {
    set i | 0 <= i < n && calls[i].key == key && decisions[i] == Allowed && calls[i].now > cutoff
  }

  /** Every call is allowed exactly when fewer than its limit were allowed on its key within its window. */
  ghost predicate DecidesByCount(calls: seq<Call>, decisions: seq<Decision>, rules: Rules) {
    && |decisions| == |calls|
    && forall n :: 0 <= n < |calls| ==>
         var rule := rules(calls[n].key);
         decisions[n] == Allowed <==>
           |AllowedSince(calls, decisions, n, calls[n].key, calls[n].now - rule.window)| < rule.limit
  }

  lemma {:induction false} LogRunAt(log: Log, calls: seq<Call>, rules: Rules, n: nat)
    requires n < |calls|
    ensures |LogRun(log, calls, rules)| == |calls|
    ensures
      var last := LogConsume(LogAfter(log, calls[..n], rules), calls[n].key, calls[n].now, rules(calls[n].key));
      && LogRun(log, calls, rules)[n] == last.1
      && LogAfter(log, calls[..n + 1], rules) == last.0
    decreases n
  {
    hide LogConsume;
    LogHoldsTheGranted(log, calls, rules);
    var call := calls[0];
    var l := LogConsume(log, call.key, call.now, rules(call.key));
    assert LogRun(log, calls, rules) == [l.1] + LogRun(l.0, calls[1..], rules);
    assert calls[..n + 1][0] == call && calls[..n + 1][1..] == calls[1..][..n];
    if n > 0 {
      LogRunAt(l.0, calls[1..], rules, n - 1);
      assert calls[..n][0] == call && calls[..n][1..] == calls[1..][..n - 1];
    } else {
      assert calls[..0] == [] && calls[1..][..0] == [];
    }
  }

  lemma {:induction false} CountIsCardinality(calls: seq<Call>, rules: Rules, n: nat, key: Key, cutoff: Time)
    requires n <= |calls|
    ensures |LogRun([], calls, rules)| == |calls|
    ensures CountSince(LogAfter([], calls[..n], rules), key, cutoff)
      == |AllowedSince(calls, LogRun([], calls, rules), n, key, cutoff)|
  {
    hide LogConsume, LogRun, LogAfter, CountSince, CountBetween, Granted, AllowedSince;
    LogHoldsTheGranted([], calls, rules);
    var decisions := LogRun([], calls, rules);
    if n == 0 {
      assert calls[..0] == [];
      NothingSince(calls, decisions, rules, key, cutoff);
    } else {
      var call := calls[n - 1];
      LogRunAt([], calls, rules, n - 1);
      CountIsCardinality(calls, rules, n - 1, key, cutoff);
      var before := LogAfter([], calls[..n - 1], rules);
      LogConsumed(before, call, rules);
      CountAppend(before, call.key, call.now, key, cutoff, cutoff);
      AllowedSinceStep(calls, decisions, n - 1, key, cutoff);
      assert before + [] == before;
    }
  }

  lemma NothingSince(calls: seq<Call>, decisions: seq<Decision>, rules: Rules, key: Key, cutoff: Time)
    ensures AllowedSince(calls, decisions, 0, key, cutoff) == {}
    ensures CountSince(LogAfter([], [], rules), key, cutoff) == 0
  {
  }

  lemma AllowedSinceStep(calls: seq<Call>, decisions: seq<Decision>, n: nat, key: Key, cutoff: Time)
    requires n < |calls| && n < |decisions|
    ensures |AllowedSince(calls, decisions, n + 1, key, cutoff)|
      == |AllowedSince(calls, decisions, n, key, cutoff)|
         + if calls[n].key == key && decisions[n] == Allowed && calls[n].now > cutoff then 1 else 0
  {
    var counts := calls[n].key == key && decisions[n] == Allowed && calls[n].now > cutoff;
    assert AllowedSince(calls, decisions, n + 1, key, cutoff)
      == AllowedSince(calls, decisions, n, key, cutoff) + if counts then {n} else {};
  }

  lemma LogDecidesByCount(calls: seq<Call>, rules: Rules)
    ensures DecidesByCount(calls, LogRun([], calls, rules), rules)
  {
    hide LogRun, LogAfter, CountSince, Granted, AllowedSince;
    LogHoldsTheGranted([], calls, rules);
    forall n | 0 <= n < |calls|
      ensures
        var rule := rules(calls[n].key);
        LogRun([], calls, rules)[n] == Allowed <==>
          |AllowedSince(calls, LogRun([], calls, rules), n, calls[n].key, calls[n].now - rule.window)| < rule.limit
    {
      LogRunAt([], calls, rules, n);
      CountIsCardinality(calls, rules, n, calls[n].key, calls[n].now - rules(calls[n].key).window);
    }
  }

  /**
   * Nobody is refused without cause and nobody let through beyond the limit: both limiters allow a
   * call exactly when they have allowed fewer than the limit on its key within its window, the
   * in-memory one whenever no key's clock runs backwards, the script whenever besides no drop forgets
   * what the window covers.
   */
  lemma LimitersDecideByCount(calls: seq<Call>, rules: Rules)
    ensures Clocked(calls, map[]) ==> DecidesByCount(calls, LocalRun(map[], calls, rules), rules)
    ensures Orderly(map[], calls, rules, map[]) && Harmless(map[], calls, rules) ==>
      DecidesByCount(calls, RedisRun(map[], calls, rules), rules)
  {
    hide DecidesByCount;
    LogDecidesByCount(calls, rules);
    if Clocked(calls, map[]) { LocalIsExact(calls, rules); }
    if Orderly(map[], calls, rules, map[]) && Harmless(map[], calls, rules) { RedisIsExact(calls, rules); }
  }

  // ---- A drop that forgets something shows ----

  /** `more` only asks again what the last of `calls` asked, at the same moment, without any drop. */
  ghost predicate Again(calls: seq<Call>, more: seq<Call>) {
    forall i :: 0 <= i < |more| ==>
      && calls != []
      && var last := calls[|calls| - 1];
         more[i].key == last.key && more[i].now == last.now && more[i].server == last.server && !more[i].dropped
  }

  /** What one call without a drop does to a set and a log that already differ. */
  lemma LessStep(keys: Keyspace, log: Log, call: Call, rule: Rule)
    requires !call.dropped && call.member !in Scores(keys, call.key) && rule.window > 0
    requires
      var cutoff := call.now - rule.window;
      |Above(Scores(keys, call.key), cutoff)| < CountSince(log, call.key, cutoff) <= rule.limit
    ensures
      var cutoff := call.now - rule.window;
      var r, l := RedisConsume(keys, call, rule), LogConsume(log, call.key, call.now, rule);
      && r.1.Allowed?
      && (l.1.Allowed? <==> CountSince(log, call.key, cutoff) < rule.limit)
      && (l.1.Allowed? ==>
            |Above(Scores(r.0, call.key), cutoff)| < CountSince(l.0, call.key, cutoff)
              == CountSince(log, call.key, cutoff) + 1)
  {
    hide RedisConsume, Above, CountSince;
    var cutoff := call.now - rule.window;
    var kept := Above(Scores(keys, call.key), cutoff);
    ConsumedScores(keys, call, rule);
    AboveTwice(Scores(keys, call.key), cutoff, cutoff);
    AboveAdd(kept, call.member, call.now, cutoff);
    CountAppend(log, call.key, call.now, call.key, cutoff, cutoff);
  }

  /** Fewer attempts stored than logged: asking again often enough is allowed by the script and refused by the log. */
  lemma {:induction false} LessIsSeen(
      keys: Keyspace, log: Log, last: Call, rules: Rules, clocks: Clocks) returns (more: seq<Call>)
    requires rules(last.key).window > 0 && last.key in clocks && clocks[last.key] == last.now
    requires
      var cutoff := last.now - rules(last.key).window;
      |Above(Scores(keys, last.key), cutoff)| < CountSince(log, last.key, cutoff) <= rules(last.key).limit
    ensures Again([last], more) && Orderly(keys, more, rules, clocks)
    ensures RedisRun(keys, more, rules) != LogRun(log, more, rules)
    decreases rules(last.key).limit - CountSince(log, last.key, last.now - rules(last.key).window)
  {
    hide RedisConsume, LogConsume, Above, Scores, CountSince;
    hide RedisRun, LogRun, Orderly, Harmless, Again, ForgetsNothing;
    var rule := rules(last.key);
    var m := NewId(Scores(keys, last.key).Keys);
    var call := last.(member := m, dropped := false);
    var r, l := RedisConsume(keys, call, rule), LogConsume(log, last.key, last.now, rule);
    LessStep(keys, log, call, rule);
    assert clocks[last.key := last.now] == clocks;
    var rest: seq<Call> := [];
    if l.1.Allowed? {
      rest := LessIsSeen(r.0, l.0, last, rules, clocks);
    } else {
      NothingAgain([last], r.0, rules, clocks);
    }
    more := [call] + rest;
    AgainOnce(last, call, rest);
    PrependedRuns(keys, log, call, rest, rules, clocks);
  }

  lemma AgainOnce(last: Call, call: Call, rest: seq<Call>)
    requires Again([last], rest)
    requires call.key == last.key && call.now == last.now && call.server == last.server && !call.dropped
    ensures Again([last], [call] + rest)
  {
  }

  /** A drop that forgets leaves the key with fewer attempts than the log, or is answered differently at once. */
  lemma ForgettingShows(keys: Keyspace, log: Log, call: Call, rules: Rules, clocks: Clocks)
    requires SetsAgree(keys, log, rules, clocks) && !ForgetsNothing(keys, call, rules) && Ticks(clocks, call)
    ensures
      var rule := rules(call.key);
      var cutoff := call.now - rule.window;
      var r, l := RedisConsume(keys, call, rule), LogConsume(log, call.key, call.now, rule);
      && rule.window > 0
      && (r.1 == l.1 ==> |Above(Scores(r.0, call.key), cutoff)| < CountSince(l.0, call.key, cutoff) <= rule.limit)
  {
    hide SetsAgree, SetAgrees, ForgetsNothing, RedisConsume, Above;
    var k, rule := call.key, rules(call.key);
    var cutoff := call.now - rule.window;
    SomethingStored(keys, log, call, rules, clocks);
    DroppedStoresOne(keys, call, rule);
    CountAppend(log, k, call.now, k, cutoff, cutoff);
  }

  lemma DroppedStoresOne(keys: Keyspace, call: Call, rule: Rule)
    requires call.dropped && rule.limit > 0 && rule.window > 0
    ensures
      var r := RedisConsume(keys, call, rule);
      r.1.Allowed? && |Above(Scores(r.0, call.key), call.now - rule.window)| == 1
  {
    var cutoff := call.now - rule.window;
    assert Above(map[], cutoff) == map[];
    AboveAdd(map[], call.member, call.now, cutoff);
  }

  lemma SomethingStored(keys: Keyspace, log: Log, call: Call, rules: Rules, clocks: Clocks)
    requires SetsAgree(keys, log, rules, clocks) && !ForgetsNothing(keys, call, rules) && Ticks(clocks, call)
    ensures call.dropped && rules(call.key).window > 0 && rules(call.key).limit > 0
    ensures CountSince(log, call.key, call.now - rules(call.key).window) > 0
  {
    var k, rule := call.key, rules(call.key);
    assert SetAgrees(keys, log, k, rules, clocks) && MayAsk(clocks, k, rules, call.now - rule.window);
    var stored := Above(Scores(keys, k), call.now - rule.window);
    assert exists m :: m in stored;
    assert |stored| == CountSince(log, k, call.now - rule.window);
    if rule.window == 0 { NothingSinceLast(log, k, call.now); }
  }

  /** If some drop of the run forgets something, the run up to it and some repetitions tell the script from the log. */
  lemma {:induction false} HarmIsSeen(keys: Keyspace, log: Log, calls: seq<Call>, rules: Rules, clocks: Clocks)
    returns (n: nat, more: seq<Call>)
    requires SetsAgree(keys, log, rules, clocks) && Orderly(keys, calls, rules, clocks) && !Harmless(keys, calls, rules)
    ensures n <= |calls| && Again(calls[..n], more) && Orderly(keys, calls[..n] + more, rules, clocks)
    ensures RedisRun(keys, calls[..n] + more, rules) != LogRun(log, calls[..n] + more, rules)
    decreases calls
  {
    hide SetsAgree, RedisConsume, LogConsume, ForgetsNothing, Above, RedisRun, LogRun, Orderly, Harmless, Again;
    HarmNeedsACall(keys, calls, rules);
    var call, rest := calls[0], calls[1..];
    var r, l := RedisConsume(keys, call, rules(call.key)), LogConsume(log, call.key, call.now, rules(call.key));
    var next := clocks[call.key := call.now];
    assert calls == [call] + rest;
    PrependedRuns(keys, log, call, rest, rules, clocks);
    if ForgetsNothing(keys, call, rules) {
      RedisStep(keys, log, rules, call, clocks);
      n, more := HarmIsSeen(r.0, l.0, rest, rules, next);
      AgainAfter(calls, n, more);
      PrependedRuns(keys, log, call, rest[..n] + more, rules, clocks);
      assert calls[..n + 1] + more == [call] + (rest[..n] + more);
      n := n + 1;
    } else {
      ForgettingShows(keys, log, call, rules, clocks);
      n, more := 1, [];
      assert calls[..1] == [call];
      if r.1 == l.1 { more := LessIsSeen(r.0, l.0, call, rules, next); } else {
        NothingAgain(calls[..1], r.0, rules, next);
      }
      PrependedRuns(keys, log, call, more, rules, clocks);
    }
  }

  lemma HarmNeedsACall(keys: Keyspace, calls: seq<Call>, rules: Rules)
    ensures !Harmless(keys, calls, rules) ==> calls != []
  {
  }

  lemma NothingAgain(calls: seq<Call>, keys: Keyspace, rules: Rules, clocks: Clocks)
    ensures Again(calls, []) && Orderly(keys, [], rules, clocks)
  {
  }

  lemma AgainAfter(calls: seq<Call>, n: nat, more: seq<Call>)
    requires n < |calls| && Again(calls[1..][..n], more)
    ensures Again(calls[..n + 1], more)
  {
    if n > 0 {
      assert calls[1..][..n][n - 1] == calls[..n + 1][n];
    }
  }

  lemma PrependedRuns(keys: Keyspace, log: Log, call: Call, rest: seq<Call>, rules: Rules, clocks: Clocks)
    ensures
      var r, l := RedisConsume(keys, call, rules(call.key)), LogConsume(log, call.key, call.now, rules(call.key));
      && (RedisRun(keys, [call] + rest, rules) == LogRun(log, [call] + rest, rules)
          <==> r.1 == l.1 && RedisRun(r.0, rest, rules) == LogRun(l.0, rest, rules))
      && (Orderly(keys, [call] + rest, rules, clocks) <==>
            && Ticks(clocks, call) && call.member !in Scores(keys, call.key)
            && (call.dropped ==> call.key in keys && keys[call.key].expiresAt <= call.server)
            && Orderly(r.0, rest, rules, clocks[call.key := call.now]))
      && (Harmless(keys, [call] + rest, rules) <==> ForgetsNothing(keys, call, rules) && Harmless(r.0, rest, rules))
  {
    hide RedisConsume, LogConsume, ForgetsNothing;
    var r, l := RedisConsume(keys, call, rules(call.key)), LogConsume(log, call.key, call.now, rules(call.key));
    assert ([call] + rest)[1..] == rest;
    var a, b := RedisRun(r.0, rest, rules), LogRun(l.0, rest, rules);
    assert ([r.1] + a)[0] == r.1 && ([r.1] + a)[1..] == a;
    assert ([l.1] + b)[0] == l.1 && ([l.1] + b)[1..] == b;
  }

  /** Repetitions without drops forget nothing. */
  lemma {:induction false} WithoutDropsIsHarmless(keys: Keyspace, more: seq<Call>, rules: Rules)
    requires forall i :: 0 <= i < |more| ==> !more[i].dropped
    ensures Harmless(keys, more, rules)
    decreases |more|
  {
    hide RedisConsume;
    if more != [] {
      WithoutDropsIsHarmless(RedisConsume(keys, more[0], rules(more[0].key)).0, more[1..], rules);
    }
  }

  lemma {:induction false} AgainIsHarmless(keys: Keyspace, calls: seq<Call>, n: nat, more: seq<Call>, rules: Rules)
    requires n <= |calls| && Harmless(keys, calls, rules) && forall i :: 0 <= i < |more| ==> !more[i].dropped
    ensures Harmless(keys, calls[..n] + more, rules)
    decreases n
  {
    hide RedisConsume, Harmless, ForgetsNothing;
    if n == 0 {
      WithoutDropsIsHarmless(keys, more, rules);
      assert calls[..0] + more == more;
    } else {
      var call, rest := calls[0], calls[1..];
      assert calls == [call] + rest;
      PrependedRuns(keys, [], call, rest, rules, map[]);
      AgainIsHarmless(RedisConsume(keys, call, rules(call.key)).0, rest, n - 1, more, rules);
      assert calls[..n] + more == [call] + (rest[..n - 1] + more);
      PrependedRuns(keys, [], call, rest[..n - 1] + more, rules, map[]);
    }
  }

  /**
   * Up to every point of the run, and however often its last call is asked again at once, the script
   * answers as the log.
   */
  ghost predicate NeverTold(calls: seq<Call>, rules: Rules) {
    forall n: nat, more: seq<Call> ::
      (n <= |calls| && Again(calls[..n], more) && Orderly(map[], calls[..n] + more, rules, map[])) ==>
        RedisRun(map[], calls[..n] + more, rules) == LogRun([], calls[..n] + more, rules)
  }

  /**
   * Exactly when whole-key expiry changes no decision: it is harmless if and only if every key that
   * is dropped has its newest stored attempt at least a window behind the caller's clock. A drop
   * that comes earlier is found out by asking the same key again at the same moment.
   */
  lemma ExpiryIsHarmlessExactlyWhen(calls: seq<Call>, rules: Rules)
    requires Orderly(map[], calls, rules, map[])
    ensures Harmless(map[], calls, rules) <==> NeverTold(calls, rules)
  {
    NothingAgrees(rules);
    if Harmless(map[], calls, rules) {
      forall n: nat, more: seq<Call> | n <= |calls| && Again(calls[..n], more)
        && Orderly(map[], calls[..n] + more, rules, map[])
        ensures RedisRun(map[], calls[..n] + more, rules) == LogRun([], calls[..n] + more, rules)
      {
        AgainIsHarmless(map[], calls, n, more, rules);
        RedisAgrees(map[], [], calls[..n] + more, rules, map[]);
      }
    } else {
      var n, more := HarmIsSeen(map[], [], calls, rules, map[]);
    }
  }

  /**
   * Nothing but the clocks rules such drops out: whatever the rule, when the server's clock gains a
   * window on a caller's, a legal drop forgets the attempt made at the same moment, and with a limit
   * of one the very next call tells.
   */
  lemma ExpiryNeedsTheClocks(key: Key, now: Time, server: Time, rules: Rules)
    requires rules(key).limit > 0 && rules(key).window > 0
    ensures
      var calls := [Call(key, now, server, 1, false)] + [Call(key, now, server + rules(key).window, 2, true)];
      && Orderly(map[], calls, rules, map[]) && !Harmless(map[], calls, rules)
      && (rules(key).limit == 1 ==> RedisRun(map[], calls, rules) != LogRun([], calls, rules))
  {
    var first, second := Call(key, now, server, 1, false), Call(key, now, server + rules(key).window, 2, true);
    var cutoff := now - rules(key).window;
    assert Above(map[], cutoff) == map[];
    var kept, log := RedisConsume(map[], first, rules(key)).0, LogConsume([], key, now, rules(key)).0;
    assert kept == map[key := Entry(map[1 := now], server + rules(key).window)];
    assert 1 in Above(map[1 := now], cutoff);
    PrependedRuns(map[], [], first, [second], rules, map[]);
    PrependedRuns(kept, log, second, [], rules, map[key := now]);
    assert map[][key := now] == map[key := now];
    assert [second] + [] == [second];
    assert log == [(key, now)];
    CountAppend([], key, now, key, cutoff, cutoff);
    assert [] + [(key, now)] == [(key, now)];
    DroppedStoresOne(kept, second, rules(key));
  }

  // ---- Clocks that make it so ----

  /**
   * Between two calls of one key the callers' clock gains at least what the server's does; `skews`
   * holds what the callers' clock was ahead at each key's last call.
   */
  ghost predicate Steady(calls: seq<Call>, skews: map<Key, int>)
    decreases calls
  {
    calls == [] ||
    (var call := calls[0];
     && (call.key in skews ==> skews[call.key] <= call.now - call.server)
     && Steady(calls[1..], skews[call.key := call.now - call.server]))
  }

  /** No stored attempt is newer than its key's expiry accounts for. */
  ghost predicate ExpiryCovers(keys: Keyspace, rules: Rules, skews: map<Key, int>, clocks: Clocks) {
    forall k, m :: k in keys && m in keys[k].scores ==>
      && k in skews && k in clocks && keys[k].scores[m] <= clocks[k]
      && keys[k].scores[m] <= keys[k].expiresAt - rules(k).window + skews[k]
  }

  lemma SteadyStep(keys: Keyspace, call: Call, rules: Rules, skews: map<Key, int>, clocks: Clocks)
    requires ExpiryCovers(keys, rules, skews, clocks) && Ticks(clocks, call)
    requires call.key in skews ==> skews[call.key] <= call.now - call.server
    requires call.dropped ==> call.key in keys && keys[call.key].expiresAt <= call.server
    ensures ForgetsNothing(keys, call, rules)
    ensures ExpiryCovers(RedisConsume(keys, call, rules(call.key)).0, rules, skews[call.key := call.now - call.server],
      clocks[call.key := call.now])
  {
  }

  lemma {:induction false} SteadyForgetsNothing(
      keys: Keyspace, calls: seq<Call>, rules: Rules, skews: map<Key, int>, clocks: Clocks)
    requires Orderly(keys, calls, rules, clocks) && Steady(calls, skews) && ExpiryCovers(keys, rules, skews, clocks)
    ensures Harmless(keys, calls, rules)
    decreases calls
  {
    hide RedisConsume, ExpiryCovers, ForgetsNothing;
    if calls != [] {
      var call := calls[0];
      var next := RedisConsume(keys, call, rules(call.key)).0;
      SteadyStep(keys, call, rules, skews, clocks);
      SteadyForgetsNothing(next, calls[1..], rules, skews[call.key := call.now - call.server],
                           clocks[call.key := call.now]);
    }
  }

  /**
   * Clocks that are steady for each key by itself make expiry harmless, whatever happens between calls
   * of different keys.
   */
  lemma SteadyClocksAreHarmless(calls: seq<Call>, rules: Rules)
    requires Orderly(map[], calls, rules, map[]) && Steady(calls, map[])
    ensures Harmless(map[], calls, rules)
  {
    SteadyForgetsNothing(map[], calls, rules, map[], map[]);
  }
}
