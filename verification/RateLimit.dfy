/**
 * Fixed-window rate limit and failure lockout of apps/broker/src/trust/rate-limit.service.ts, over one Redis key each.
 */
module RateLimit {
  import opened Common
  import Radix

  /** A Redis counter: its value and when it expires, if it has a time to live. A key that is not there counts 0. */
  datatype Counter = Counter(count: nat, expiresAt: Option<int>)

  const ABSENT: Counter := Counter(0, None)

  predicate Alive(c: Counter, now: int) { c.count > 0 && (c.expiresAt.Some? ==> now < c.expiresAt.value) }

  /** INCR on a key that expired, or was never there, starts at 1 without a time to live. */
  function Incr(c: Counter, now: int): Counter { if Alive(c, now) then c.(count := c.count + 1) else Counter(1, None) }

  /** EXPIRE does nothing to a key that is not there. */
  function Expire(c: Counter, now: int, ttl: int): Counter {
    if Alive(c, now) then c.(expiresAt := Some(now + ttl)) else c
  }

  function Get(c: Counter, now: int): nat { if Alive(c, now) then c.count else 0 }

  // ----------------------------------------------------------------- the service

  /** The keys under one prefix. */
  class Redis {
    var keys: map<string, Counter>

    function At(key: string): Counter
      reads this
    {
      if key in keys then keys[key] else ABSENT
    }

    constructor ()
      ensures keys == map[]
    {
      keys := map[];
    }

    method DoIncr(key: string, now: int) returns (count: nat)
      modifies this
      ensures keys == old(keys)[key := Incr(old(At(key)), now)] && count == At(key).count
    {
      var c := if key in keys then keys[key] else ABSENT;
      c := if Alive(c, now) then c.(count := c.count + 1) else Counter(1, None);
      keys := keys[key := c];
      count := c.count;
    }

    method DoExpire(key: string, now: int, ttl: int)
      requires key in keys
      modifies this
      ensures keys == old(keys)[key := Expire(old(At(key)), now, ttl)]
    {
      if Alive(keys[key], now) { keys := keys[key := keys[key].(expiresAt := Some(now + ttl))]; }
      assert keys == old(keys)[key := Expire(old(At(key)), now, ttl)];
    }
  }

  /** `hit`, its two commands at times `t0` and `t1`. */
  method Hit(redis: Redis, key: string, limit: nat, window: int, t0: int, t1: int) returns (ok: bool)
    modifies redis
    ensures redis.keys == old(redis.keys)[key := AfterHit(old(redis.At(key)), window, t0, t1)]
    ensures ok <==> Incr(old(redis.At(key)), t0).count <= limit
  {
    var count := redis.DoIncr(key, t0);
    if count == 1 { redis.DoExpire(key, t1, window); }
    ok := count <= limit;
  }

  function AfterHit(c: Counter, window: int, t0: int, t1: int): Counter {
    var c1 := Incr(c, t0);
    if c1.count == 1 then Expire(c1, t1, window) else c1
  }

  function Factor(count: nat, max: nat): nat
    requires count >= max
  {
    Radix.Pow(2, if count - max < 4 then count - max else 4)
  }

  /** The lockout doubles with each failure beyond the maximum, four times at most. */
  lemma FactorIs(count: nat, max: nat)
    requires count >= max
    ensures Factor(count, max) == Radix.Pow(2, Min(count - max, 4))
  {
  }

  /** `recordFailure`, its commands at times `t0 <= t1 <= t2`. */
  method RecordFailure(redis: Redis, key: string, max: nat, window: int, t0: int, t1: int, t2: int)
    modifies redis
    ensures redis.keys == old(redis.keys)[key := AfterFailure(old(redis.At(key)), max, window, t0, t1, t2)]
    ensures var count := Incr(old(redis.At(key)), t0).count;
      count >= max && Alive(AfterHit(old(redis.At(key)), window, t0, t1), t2) ==>
        redis.At(key) == Counter(count, Some(t2 + window * Radix.Pow(2, Min(count - max, 4))))
  {
    var count := redis.DoIncr(key, t0);
    if count == 1 { redis.DoExpire(key, t1, window); }
    if count >= max { redis.DoExpire(key, t2, window * Factor(count, max)); }
  }

  function AfterFailure(c: Counter, max: nat, window: int, t0: int, t1: int, t2: int): Counter {
    var c2 := AfterHit(c, window, t0, t1);
    var count := Incr(c, t0).count;
    if count >= max then Expire(c2, t2, window * Factor(count, max)) else c2
  }

  /** `assertNotLockedOut` refuses. A count of zero is no count. */
  predicate LockedOut(c: Counter, max: nat, now: int) { Get(c, now) > 0 && Get(c, now) >= max }

  method AssertNotLockedOut(redis: Redis, key: string, max: nat, now: int) returns (ok: bool)
    ensures ok <==> !LockedOut(redis.At(key), max, now)
  {
    var count := if key in redis.keys && Alive(redis.keys[key], now) then redis.keys[key].count else 0;
    ok := !(count > 0 && count >= max);
  }

  method ClearFailures(redis: Redis, key: string)
    modifies redis
    ensures redis.keys == old(redis.keys) - {key} && redis.At(key) == ABSENT
  {
    redis.keys := redis.keys - {key};
  }

  // ------------------------------------------------ rate limit, command by command

  /**
   * Commands of any number of concurrent `hit` calls on one key. The caller whose INCR created the key sends its EXPIRE
   * at some later moment, or never.
   */
  datatype Command = DoIncr(now: int) | DoExpire(now: int)

  /** An EXPIRE is only ever sent for a life of the key that has no time to live yet. */
  function After(c: Counter, window: int, cmd: Command): Counter {
    match cmd
    case DoIncr(now) => Incr(c, now)
    case DoExpire(now) => if c.expiresAt.None? then Expire(c, now, window) else c
  }

  predicate Passes(c: Counter, limit: nat, cmd: Command) { cmd.DoIncr? && Incr(c, cmd.now).count <= limit }

  /** How many of the commands are calls to `hit` that succeed. */
  function Passed(c: Counter, limit: nat, window: int, cmds: seq<Command>): nat
    decreases |cmds|
  {
    if cmds == [] then 0
    else (if Passes(c, limit, cmds[0]) then 1 else 0) + Passed(After(c, window, cmds[0]), limit, window, cmds[1..])
  }

  function Run(c: Counter, window: int, cmds: seq<Command>): Counter
    decreases |cmds|
  {
    if cmds == [] then c else Run(After(c, window, cmds[0]), window, cmds[1..])
  }

  /** One call of `hit` is its INCR and, if it made the key, its EXPIRE. */
  lemma HitIsItsCommands(c: Counter, window: int, t0: int, t1: int)
    ensures AfterHit(c, window, t0, t1) ==
            Run(c, window, [DoIncr(t0)] + (if Incr(c, t0).count == 1 then [DoExpire(t1)] else []))
  {
    var made := Incr(c, t0).count == 1;
    var cmds := [DoIncr(t0)] + (if made then [DoExpire(t1)] else []);
    assert cmds[1..] == (if made then [DoExpire(t1)] else []);
    assert Run(c, window, cmds) == Run(Incr(c, t0), window, cmds[1..]);
    if made { assert Run(Incr(c, t0), window, [DoExpire(t1)]) == Expire(Incr(c, t0), t1, window); }
  }

  /** In time order, all within `[from, to)`. */
  predicate Within(cmds: seq<Command>, from: int, to: int) {
    cmds == [] || (from <= cmds[0].now < to && Within(cmds[1..], cmds[0].now, to))
  }

  function Left(limit: nat, count: nat): nat { if count <= limit then limit - count else 0 }

  /** Until the key dies it only counts up, so at most what is left of the limit passes. */
  predicate LivesUntil(c: Counter, to: int) { c.count > 0 && (c.expiresAt.Some? ==> to <= c.expiresAt.value) }

  lemma {:induction false} OneLife(c: Counter, limit: nat, window: int, cmds: seq<Command>, from: int, to: int)
    requires Within(cmds, from, to) && LivesUntil(c, to) && to <= from + window
    ensures Passed(c, limit, window, cmds) <= Left(limit, c.count)
    decreases |cmds|
  {
    if cmds != [] {
      LaterWithin(cmds, from, to);
      OneLife(After(c, window, cmds[0]), limit, window, cmds[1..], from, to);
    }
  }

  lemma LaterWithin(cmds: seq<Command>, from: int, to: int)
    requires cmds != [] && Within(cmds, from, to)
    ensures Within(cmds[1..], from, to)
  {
  }

  /** At most two lives of the key meet an interval as long as the window: what is left of one, and one whole. */
  lemma {:induction false} TwoLives(c: Counter, limit: nat, window: int, cmds: seq<Command>, from: int, to: int)
    requires Within(cmds, from, to) && to <= from + window
    ensures Passed(c, limit, window, cmds) <= Left(limit, c.count) + limit
    decreases |cmds|
  {
    if cmds != [] {
      var c' := After(c, window, cmds[0]);
      LaterWithin(cmds, from, to);
      if cmds[0].DoIncr? && !Alive(c, cmds[0].now) {
        OneLife(c', limit, window, cmds[1..], from, to);
      } else {
        TwoLives(c', limit, window, cmds[1..], from, to);
      }
    }
  }

  /**
   * Whatever came before, at most twice the limit passes in any half-open interval as long as the window, for any
   * interleaving of the commands of concurrent callers.
   */
  lemma AtMostTwiceTheLimit(limit: nat, window: nat, before: seq<Command>, during: seq<Command>, from: int)
    requires Within(during, from, from + window)
    ensures Passed(Run(ABSENT, window, before), limit, window, during) <= 2 * limit
  {
    TwoLives(Run(ABSENT, window, before), limit, window, during, from, from + window);
  }

  /** No INCR among the commands finds the key gone: they fall into one window. */
  predicate OneWindow(c: Counter, window: int, cmds: seq<Command>)
    decreases |cmds|
  {
    cmds == [] ||
    ((cmds[0].DoIncr? ==> Alive(c, cmds[0].now)) && OneWindow(After(c, window, cmds[0]), window, cmds[1..]))
  }

  /** How many of the commands are calls to `hit`. */
  function Hits(cmds: seq<Command>): nat {
    if cmds == [] then 0 else (if cmds[0].DoIncr? then 1 else 0) + Hits(cmds[1..])
  }

  lemma {:induction false} LeftInWindow(c: Counter, limit: nat, window: int, cmds: seq<Command>)
    requires OneWindow(c, window, cmds)
    ensures Passed(c, limit, window, cmds) == Min(Hits(cmds), Left(limit, c.count))
    decreases |cmds|
  {
    if cmds != [] { LeftInWindow(After(c, window, cmds[0]), limit, window, cmds[1..]); }
  }

  /**
   * From the INCR that creates the key to its expiry, exactly the first `limit` calls succeed, or all if there are
   * fewer.
   */
  lemma LimitPerWindow(c: Counter, limit: nat, window: int, cmds: seq<Command>)
    requires cmds != [] && cmds[0].DoIncr? && !Alive(c, cmds[0].now)
    requires OneWindow(After(c, window, cmds[0]), window, cmds[1..])
    ensures Passed(c, limit, window, cmds) == Min(Hits(cmds), limit)
  {
    LeftInWindow(After(c, window, cmds[0]), limit, window, cmds[1..]);
  }

  // ------------------------------------------------------------------- lockout

  datatype Failure = Failure(t0: int, t1: int, t2: int)

  /** One handler after another; each sends its commands in order. */
  predicate InOrder(fs: seq<Failure>, from: int, to: int) {
    fs == [] ||
    (from <= fs[0].t0 <= fs[0].t1 <= fs[0].t2 <= to && InOrder(fs[1..], fs[0].t2, to))
  }

  function AfterFailures(c: Counter, max: nat, window: int, fs: seq<Failure>): Counter
    decreases |fs|
  {
    if fs == [] then c
    else AfterFailures(AfterFailure(c, max, window, fs[0].t0, fs[0].t1, fs[0].t2), max, window, fs[1..])
  }

  lemma FactorMonotone(count: nat, more: nat, max: nat)
    requires max <= count <= more
    ensures 1 <= Factor(count, max) <= Factor(more, max)
  {
    Radix.PowPositive(2, if count - max < 4 then count - max else 4);
    Radix.PowMonotone(2, if count - max < 4 then count - max else 4, if more - max < 4 then more - max else 4);
  }

  /**
   * The condition is exact: right after a failure that brought the count to the maximum, the check refuses if and only
   * if the key had not expired between that failure's INCR and its EXPIRE (and the lockout time is not nothing).
   */
  lemma LockoutTakesHoldIff(c: Counter, max: nat, window: nat, f: Failure)
    requires f.t0 <= f.t1 <= f.t2 && window >= 1 && Incr(c, f.t0).count >= max
    ensures LockedOut(AfterFailure(c, max, window, f.t0, f.t1, f.t2), max, f.t2) <==>
        Alive(AfterHit(c, window, f.t0, f.t1), f.t2)
  {
    hide Factor;
    var count := Incr(c, f.t0).count;
    FactorMonotone(count, count, max);
    Radix.MulMonotone(1, Factor(count, max), window);
  }
}
