/**
 * The failure lockout of apps/broker/src/trust/rate-limit.service.ts under concurrency: every `recordFailure` is an
 * INCR and up to two EXPIREs, and the commands of any number of calls interleave on one key.
 */
module Lockout {
  import opened Common
  import opened RateLimit
  import Radix

  datatype Policy = Policy(max: nat, window: nat)

  /** A `recordFailure` after its INCR, which returned `count`; `windowDue` while its first EXPIRE is still to come. */
  datatype Call = Call(count: nat, windowDue: bool)

  type Caller = nat

  datatype State = State(key: Counter, calls: map<Caller, Call>)

  datatype Step =
    | Fail(t: Caller, now: int)
    | LandWindow(t: Caller, now: int)    // EXPIRE(window), sent by the call whose INCR returned 1
    | LandLockout(t: Caller, now: int)   // EXPIRE(window * 2^min(count - max, 4)), sent from `max` on
    | Drop(t: Caller, now: int)          // the call ends, or its process dies
    | Clear(now: int)

  /** The deadline that the EXPIRE landing in this step sets, if one lands. */
  function Landing(p: Policy, s: State, step: Step): Option<int> {
    match step
    case LandWindow(t, now) => if t in s.calls && s.calls[t].windowDue then Some(now + p.window) else None
    case LandLockout(t, now) =>
      if t in s.calls && !s.calls[t].windowDue && s.calls[t].count >= p.max
      then Some(now + p.window * Factor(s.calls[t].count, p.max)) else None
    case _ => None
  }

  function Apply(p: Policy, s: State, step: Step): State {
    match step
    case Fail(t, now) =>
      if t in s.calls then s
      else
        var key := Incr(s.key, now);
        State(key, s.calls[t := Call(key.count, key.count == 1)])
    case LandWindow(t, now) =>
      if Landing(p, s, step).None? then s
      else State(Expire(s.key, now, p.window), s.calls[t := s.calls[t].(windowDue := false)])
    case LandLockout(t, now) =>
      if Landing(p, s, step).None? then s
      else State(Expire(s.key, now, p.window * Factor(s.calls[t].count, p.max)), s.calls - {t})
    case Drop(t, _) => s.(calls := s.calls - {t})
    case Clear(_) => s.(key := ABSENT)
  }

  function Run(p: Policy, s: State, steps: seq<Step>): State
    decreases |steps|
  {
    if steps == [] then s else Run(p, Apply(p, s, steps[0]), steps[1..])
  }

  /** In time order from `at`, all before `end`. */
  predicate Within(steps: seq<Step>, at: int, end: int) {
    steps == [] || (at <= steps[0].now < end && Within(steps[1..], steps[0].now, end))
  }

  // ------------------------------------------------- the last EXPIRE to land decides

  function NextDeadline(p: Policy, s: State, step: Step, d: Option<int>): Option<int> {
    if Landing(p, s, step).Some? then Landing(p, s, step) else d
  }

  /** The deadline of the last EXPIRE to land in the run, or the one in force before it. */
  function LastDeadline(p: Policy, s: State, steps: seq<Step>, d: Option<int>): Option<int>
    decreases |steps|
  {
    if steps == [] then d
    else LastDeadline(p, Apply(p, s, steps[0]), steps[1..], NextDeadline(p, s, steps[0], d))
  }

  predicate Ahead(d: Option<int>, now: int) { d.Some? ==> now < d.value }

  /** The key lives: no step comes at or after the deadline then in force, and nothing clears it. */
  predicate Lives(p: Policy, s: State, steps: seq<Step>, d: Option<int>)
    decreases |steps|
  {
    steps == [] ||
    (!steps[0].Clear? && Ahead(d, steps[0].now)
     && Lives(p, Apply(p, s, steps[0]), steps[1..], NextDeadline(p, s, steps[0], d)))
  }

  /** How many failures the run records. */
  function Failures(p: Policy, s: State, steps: seq<Step>): nat
    decreases |steps|
  {
    if steps == [] then 0
    else (if steps[0].Fail? && steps[0].t !in s.calls then 1 else 0) + Failures(p, Apply(p, s, steps[0]), steps[1..])
  }

  lemma LivingStep(p: Policy, s: State, step: Step)
    requires s.key.count >= 1 && !step.Clear? && Ahead(s.key.expiresAt, step.now)
    ensures var s' := Apply(p, s, step);
      && s'.key.count == s.key.count + (if step.Fail? && step.t !in s.calls then 1 else 0)
      && s'.key.expiresAt == NextDeadline(p, s, step, s.key.expiresAt)
  {
    hide Factor;
  }

  /**
   * Over every interleaving, while the key lives: it counts every failure, and checks refuse exactly from the maximum
   * on and until the deadline of the last EXPIRE to land, whichever call sent it.
   */
  lemma {:induction false} LastExpireDecides(p: Policy, s: State, steps: seq<Step>)
    requires s.key.count >= 1 && Lives(p, s, steps, s.key.expiresAt)
    ensures var s' := Run(p, s, steps);
      && s'.key == Counter(s.key.count + Failures(p, s, steps), LastDeadline(p, s, steps, s.key.expiresAt))
      && forall now :: LockedOut(s'.key, p.max, now) <==>
                         s.key.count + Failures(p, s, steps) >= p.max
                             && Ahead(LastDeadline(p, s, steps, s.key.expiresAt), now)
    decreases |steps|
  {
    hide Apply, Landing, NextDeadline;
    if steps != [] {
      LivingStep(p, s, steps[0]);
      LastExpireDecides(p, Apply(p, s, steps[0]), steps[1..]);
    }
  }

  // ------------------------------------------------------- when a lockout is kept

  /** Left alone, the key refuses every check before `end`. */
  ghost predicate Stands(key: Counter, max: nat, end: int) { forall now :: now < end ==> LockedOut(key, max, now) }

  lemma StandsIff(key: Counter, max: nat, end: int)
    ensures Stands(key, max, end) <==>
        key.count >= 1 && key.count >= max && (key.expiresAt.Some? ==> key.expiresAt.value >= end)
  {
    var last := if key.expiresAt.Some? && key.expiresAt.value < end then key.expiresAt.value else end - 1;
    assert Stands(key, max, end) ==> LockedOut(key, max, last);
  }

  /** The lockout until `end` stands before and after every step. */
  ghost predicate Kept(p: Policy, s: State, steps: seq<Step>, end: int)
    decreases |steps|
  {
    Stands(s.key, p.max, end) && (steps != [] ==> Kept(p, Apply(p, s, steps[0]), steps[1..], end))
  }

  /** No EXPIRE with an earlier deadline lands, and nobody clears the failures. */
  predicate NoneEarlier(p: Policy, s: State, steps: seq<Step>, end: int)
    decreases |steps|
  {
    steps == [] ||
    (!steps[0].Clear? && (Landing(p, s, steps[0]).Some? ==> Landing(p, s, steps[0]).value >= end)
     && NoneEarlier(p, Apply(p, s, steps[0]), steps[1..], end))
  }

  lemma StandsStep(p: Policy, s: State, step: Step, end: int)
    requires Stands(s.key, p.max, end) && step.now < end
    ensures Stands(Apply(p, s, step).key, p.max, end) <==>
            !step.Clear? && (Landing(p, s, step).Some? ==> Landing(p, s, step).value >= end)
  {
    hide Stands;
    StandsIff(s.key, p.max, end);
    StandsIff(Apply(p, s, step).key, p.max, end);
    if !step.Clear? { LivingStep(p, s, step); }
    hide Factor;
  }

  /**
   * The exact condition: a lockout until `end` outlasts any interleaving of further failures before then if and only if
   * no EXPIRE with an earlier deadline lands in it and nobody clears the failures.
   */
  lemma {:induction false} LockoutKeptIff(p: Policy, s: State, steps: seq<Step>, from: int, end: int)
    requires Stands(s.key, p.max, end) && Within(steps, from, end)
    ensures Kept(p, s, steps, end) <==> NoneEarlier(p, s, steps, end)
    decreases |steps|
  {
    hide Apply, Landing, Stands;
    if steps != [] {
      StandsStep(p, s, steps[0], end);
      if Stands(Apply(p, s, steps[0]).key, p.max, end) {
        LockoutKeptIff(p, Apply(p, s, steps[0]), steps[1..], steps[0].now, end);
      }
    }
  }

  /** An EXPIRE that lands sets the lockout if and only if it finds the key there, with the maximum reached. */
  lemma LandingLocksIff(p: Policy, s: State, step: Step)
    requires Landing(p, s, step).Some? && Landing(p, s, step).value > step.now
    ensures Stands(Apply(p, s, step).key, p.max, Landing(p, s, step).value) <==>
        Alive(s.key, step.now) && s.key.count >= p.max
  {
    hide Factor;
    StandsIff(Apply(p, s, step).key, p.max, Landing(p, s, step).value);
  }

  /** Whenever from `from` on the call sends what it still has to send, no deadline falls before `end`. */
  predicate CallHarmless(p: Policy, c: Call, from: int, end: int) {
    && (c.windowDue ==> from + p.window >= end)
    && (c.count >= p.max ==> from + p.window * Factor(c.count, p.max) >= end)
  }

  /** No call under way, and no failure after the `n`th, can shorten a lockout until `end`. */
  predicate Guarded(p: Policy, s: State, n: nat, from: int, end: int)
    requires n >= p.max
  {
    && from + p.window * Factor(n + 1, p.max) >= end
    && forall t | t in s.calls :: CallHarmless(p, s.calls[t], from, end)
  }

  lemma LaterCallHarmless(p: Policy, n: nat, m: nat, from: int, end: int)
    requires m > n >= p.max && from + p.window * Factor(n + 1, p.max) >= end
    ensures from + p.window * Factor(m, p.max) >= end
  {
    hide Factor;
    FactorMonotone(n + 1, m, p.max);
    Radix.MulMonotone(Factor(n + 1, p.max), Factor(m, p.max), p.window);
  }

  lemma GuardedStep(p: Policy, s: State, n: nat, step: Step, from: int, end: int)
    requires n >= p.max && s.key.count >= n && Guarded(p, s, n, from, end) && Stands(s.key, p.max, end)
    requires from <= step.now < end && !step.Clear?
    ensures Landing(p, s, step).Some? ==> Landing(p, s, step).value >= end
    ensures Guarded(p, Apply(p, s, step), n, from, end) && Apply(p, s, step).key.count >= n
  {
    hide Factor, Stands;
    StandsIff(s.key, p.max, end);
    LivingStep(p, s, step);
    if step.Fail? && step.t !in s.calls { LaterCallHarmless(p, n, s.key.count + 1, from, end); }
  }

  lemma {:induction false} GuardedHolds(p: Policy, s: State, n: nat, steps: seq<Step>, from: int, end: int)
    requires n >= p.max && s.key.count >= n && Guarded(p, s, n, from, end) && Stands(s.key, p.max, end)
    requires Within(steps, from, end) && NoClear(steps)
    ensures NoneEarlier(p, s, steps, end) && Stands(Run(p, s, steps).key, p.max, end)
    decreases |steps|
  {
    hide Factor, Stands, Guarded, Apply, Landing;
    if steps != [] {
      GuardedStep(p, s, n, steps[0], from, end);
      StandsStep(p, s, steps[0], end);
      LaterWithin(steps, from, end);
      GuardedHolds(p, Apply(p, s, steps[0]), n, steps[1..], from, end);
    }
  }

  predicate NoClear(steps: seq<Step>) { forall i :: 0 <= i < |steps| ==> !steps[i].Clear? }

  /** Every run from `from` on that nobody clears keeps the lockout until `end`. */
  ghost predicate KeptByAll(p: Policy, s: State, from: int, end: int) {
    forall steps | Within(steps, from, end) && NoClear(steps) :: Kept(p, s, steps, end)
  }

  /** One step, or two at one moment, of a run that nobody clears. */
  lemma ShortRuns(p: Policy, s: State, a: Step, b: Step, from: int, end: int)
    requires KeptByAll(p, s, from, end) && a.now == b.now == from < end && !a.Clear? && !b.Clear?
    ensures Stands(Apply(p, s, a).key, p.max, end) && Stands(Apply(p, Apply(p, s, a), b).key, p.max, end)
  {
    hide Apply, Stands;
    var steps := [a, b];
    assert steps[1..] == [b] && [b][1..] == [];
    assert Within([b], from, end) && Within(steps, from, end) && NoClear(steps);
    assert Kept(p, s, steps, end) && Kept(p, Apply(p, s, a), [b], end);
    assert Kept(p, Apply(p, Apply(p, s, a), b), [], end);
  }

  lemma NewCaller(calls: map<Caller, Call>) returns (t: Caller)
    ensures t !in calls
  {
    var n := Above(calls.Keys);
    t := n;
  }

  lemma Above(ts: set<Caller>) returns (n: nat)
    ensures forall t | t in ts :: t < n
  {
    if ts == {} {
      n := 0;
    } else {
      var t :| t in ts;
      var m := Above(ts - {t});
      n := if t < m then m else t + 1;
      assert ts == ts - {t} + {t};
    }
  }

  /** A call that could shorten the lockout has a run in which it does. */
  lemma CallMustBeHarmless(p: Policy, s: State, t: Caller, from: int, end: int)
    requires Stands(s.key, p.max, end) && from < end && KeptByAll(p, s, from, end) && t in s.calls
    ensures CallHarmless(p, s.calls[t], from, end)
  {
    hide Factor, KeptByAll, Stands;
    var a, b := LandWindow(t, from), LandLockout(t, from);
    ShortRuns(p, s, a, b, from, end);
    StandsStep(p, s, a, end);
    StandsStep(p, Apply(p, s, a), b, end);
  }

  lemma NextMustBeHarmless(p: Policy, s: State, from: int, end: int)
    requires Stands(s.key, p.max, end) && from < end && KeptByAll(p, s, from, end)
    ensures s.key.count >= p.max && from + p.window * Factor(s.key.count + 1, p.max) >= end
  {
    hide Factor, KeptByAll, Stands;
    StandsIff(s.key, p.max, end);
    var t := NewCaller(s.calls);
    var a, b := Fail(t, from), LandLockout(t, from);
    ShortRuns(p, s, a, b, from, end);
    StandsStep(p, Apply(p, s, a), b, end);
  }

  /**
   * The exact condition on the present state: a lockout that stands until `end` outlasts every run before then that
   * nobody clears if and only if neither the next failure nor any call under way can set an earlier deadline.
   */
  lemma KeptByAllIff(p: Policy, s: State, from: int, end: int)
    requires Stands(s.key, p.max, end) && from < end
    ensures s.key.count >= p.max && (KeptByAll(p, s, from, end) <==> Guarded(p, s, s.key.count, from, end))
  {
    hide Factor, Stands, CallHarmless, Kept, NoneEarlier;
    StandsIff(s.key, p.max, end);
    if KeptByAll(p, s, from, end) {
      NextMustBeHarmless(p, s, from, end);
      forall t | t in s.calls ensures CallHarmless(p, s.calls[t], from, end) { CallMustBeHarmless(p, s, t, from, end); }
    }
    if Guarded(p, s, s.key.count, from, end) {
      forall steps | Within(steps, from, end) && NoClear(steps) ensures Kept(p, s, steps, end) {
        GuardedHolds(p, s, s.key.count, steps, from, end);
        LockoutKeptIff(p, s, steps, from, end);
      }
    }
  }

  /** Every call still under way has counted at least `n`, and none is about to set the plain window. */
  predicate Settled(s: State, n: nat) {
    forall t | t in s.calls :: s.calls[t].count >= n && !s.calls[t].windowDue
  }

  /**
   * In particular, if no call with a smaller count is still under way when the lockout of the `n`th failure stands, it
   * holds for the window times 2^min(n - max, 4) under every interleaving of whatever failures follow.
   */
  lemma SettledLockoutHolds(p: Policy, s: State, n: nat, steps: seq<Step>, from: int, end: int)
    requires Settled(s, n) && n >= p.max && s.key.count >= n >= 1 && Stands(s.key, p.max, end)
    requires Within(steps, from, end) && end <= from + p.window * Radix.Pow(2, Min(n - p.max, 4)) && NoClear(steps)
    ensures NoneEarlier(p, s, steps, end) && Stands(Run(p, s, steps).key, p.max, end)
  {
    hide Factor, Stands, Radix.Pow;
    FactorIs(n, p.max);
    FactorMonotone(n, n + 1, p.max);
    Radix.MulMonotone(Factor(n, p.max), Factor(n + 1, p.max), p.window);
    forall t | t in s.calls ensures CallHarmless(p, s.calls[t], from, end) {
      if s.calls[t].count > n { LaterCallHarmless(p, n, s.calls[t].count, from, end); }
    }
    GuardedHolds(p, s, n, steps, from, end);
  }

  lemma LaterWithin(steps: seq<Step>, from: int, end: int)
    requires steps != [] && Within(steps, from, end)
    ensures Within(steps[1..], from, end)
  {
  }

  // -------------------------------------------------------- one handler after another

  /** One failure's commands in a row. */
  function InARow(f: Failure): seq<Step> { [Fail(0, f.t0), LandWindow(0, f.t1), LandLockout(0, f.t2), Drop(0, f.t2)] }

  function AllInARow(fs: seq<Failure>): seq<Step> { if fs == [] then [] else InARow(fs[0]) + AllInARow(fs[1..]) }

  lemma {:induction false} RunJoin(p: Policy, s: State, a: seq<Step>, b: seq<Step>)
    ensures Run(p, s, a + b) == Run(p, Run(p, s, a), b)
    decreases |a|
  {
    hide Apply;
    if a == [] {
      assert a + b == b;
    } else {
      assert (a + b)[1..] == a[1..] + b;
      RunJoin(p, Apply(p, s, a[0]), a[1..], b);
    }
  }

  lemma RunFour(p: Policy, s: State, a: Step, b: Step, c: Step, d: Step)
    ensures Run(p, s, [a, b, c, d]) == Apply(p, Apply(p, Apply(p, Apply(p, s, a), b), c), d)
  {
    hide Apply;
    assert [a, b, c, d][1..] == [b, c, d] && [b, c, d][1..] == [c, d] && [c, d][1..] == [d] && [d][1..] == [];
    var s1, s2 := Apply(p, s, a), Apply(p, Apply(p, s, a), b);
    assert Run(p, s, [a, b, c, d]) == Run(p, s1, [b, c, d]) == Run(p, s2, [c, d]) == Run(p, Apply(p, s2, c), [d]);
  }

  lemma OneInARow(p: Policy, c: Counter, f: Failure)
    ensures Run(p, State(c, map[]), InARow(f)) == State(AfterFailure(c, p.max, p.window, f.t0, f.t1, f.t2), map[])
  {
    hide Factor;
    RunFour(p, State(c, map[]), Fail(0, f.t0), LandWindow(0, f.t1), LandLockout(0, f.t2), Drop(0, f.t2));
  }

  lemma {:induction false} SequentialIsARun(p: Policy, c: Counter, fs: seq<Failure>)
    ensures Run(p, State(c, map[]), AllInARow(fs)) == State(AfterFailures(c, p.max, p.window, fs), map[])
    decreases |fs|
  {
    hide AfterFailure, InARow;
    if fs != [] {
      OneInARow(p, c, fs[0]);
      RunJoin(p, State(c, map[]), InARow(fs[0]), AllInARow(fs[1..]));
      SequentialIsARun(p, AfterFailure(c, p.max, p.window, fs[0].t0, fs[0].t1, fs[0].t2), fs[1..]);
    }
  }

  lemma {:induction false} InOrderWithin(fs: seq<Failure>, from: int, now: int, end: int)
    requires InOrder(fs, from, now) && now < end
    ensures Within(AllInARow(fs), from, end) && NoClear(AllInARow(fs))
    decreases |fs|
  {
    if fs != [] {
      var f, rest := fs[0], AllInARow(fs[1..]);
      InOrderWithin(fs[1..], f.t2, now, end);
      var steps := InARow(f) + rest;
      assert steps[1..][1..][1..][1..] == rest;
      assert steps[1..][0] == LandWindow(0, f.t1) && steps[1..][1..][0] == LandLockout(0, f.t2);
      assert steps[1..][1..][1..][0] == Drop(0, f.t2);
      assert Within(steps[1..][1..][1..], f.t2, end) && Within(steps[1..][1..], f.t1, end)
          && Within(steps[1..], f.t0, end);
    }
  }

  /**
   * The sequential case: once a failure brings the count to the maximum and the key is still there when its last EXPIRE
   * arrives, every check refuses until the window times 2^min(count - max, 4) has passed since then, whatever further
   * failures do; only `clearFailures` ends it sooner.
   */
  lemma LockoutHolds(c: Counter, max: nat, window: nat, f: Failure, fs: seq<Failure>, now: int)
    requires f.t0 <= f.t1 <= f.t2 && InOrder(fs, f.t2, now) && f.t2 <= now
    requires var count := Incr(c, f.t0).count;
      && count >= max && Alive(AfterHit(c, window, f.t0, f.t1), f.t2)
      && now < f.t2 + window * Radix.Pow(2, Min(count - max, 4))
    ensures LockedOut(AfterFailures(AfterFailure(c, max, window, f.t0, f.t1, f.t2), max, window, fs), max, now)
  {
    hide Factor, Run, Radix.Pow;
    FactorIs(Incr(c, f.t0).count, max);
    var p, count := Policy(max, window), Incr(c, f.t0).count;
    var end := f.t2 + window * Factor(count, max);
    var c' := AfterFailure(c, max, window, f.t0, f.t1, f.t2);
    StandsIff(c', max, end);
    InOrderWithin(fs, f.t2, now, end);
    SettledLockoutHolds(p, State(c', map[]), count, AllInARow(fs), f.t2, end);
    SequentialIsARun(p, c', fs);
  }

  // ------------------------------------------------------------ two that shorten it

  const THREE: Policy := Policy(3, 100)

  const FIVE_FAILURES: seq<Step> := [Fail(0, 0), Fail(1, 0), Fail(2, 0), Fail(3, 0)] + [Fail(4, 0)]

  /** Five failures have counted; the first has not set the window yet. */
  const FIVE: State :=
    State(Counter(5, None),
        map[0 := Call(1, true), 1 := Call(2, false), 2 := Call(3, false), 3 := Call(4, false), 4 := Call(5, false)])

  lemma FiveFailures()
    ensures Run(THREE, State(ABSENT, map[]), FIVE_FAILURES) == FIVE
  {
    var s0 := State(ABSENT, map[]);
    var s1 := Apply(THREE, s0, Fail(0, 0));
    assert s1 == State(Counter(1, None), map[0 := Call(1, true)]);
    var s2 := Apply(THREE, s1, Fail(1, 0));
    assert s2 == State(Counter(2, None), map[0 := Call(1, true), 1 := Call(2, false)]);
    var s3 := Apply(THREE, s2, Fail(2, 0));
    assert s3 == State(Counter(3, None), map[0 := Call(1, true), 1 := Call(2, false), 2 := Call(3, false)]);
    var s4 := Apply(THREE, s3, Fail(3, 0));
    assert s4 == State(Counter(4, None),
        map[0 := Call(1, true), 1 := Call(2, false), 2 := Call(3, false), 3 := Call(4, false)]);
    assert Apply(THREE, s4, Fail(4, 0)) == FIVE;
    RunFour(THREE, s0, Fail(0, 0), Fail(1, 0), Fail(2, 0), Fail(3, 0));
    RunJoin(THREE, s0, [Fail(0, 0), Fail(1, 0), Fail(2, 0), Fail(3, 0)], [Fail(4, 0)]);
    RunOne(THREE, s4, Fail(4, 0));
  }

  lemma RunOne(p: Policy, s: State, step: Step)
    ensures Run(p, s, [step]) == Apply(p, s, step)
  {
    hide Apply;
    assert [step][1..] == [];
  }

  /** After the five failures, one EXPIRE lands, and then another. */
  lemma TwoMore(a: Step, b: Step)
    ensures Run(THREE, State(ABSENT, map[]), FIVE_FAILURES + [a]) == Apply(THREE, FIVE, a)
    ensures Run(THREE, State(ABSENT, map[]), FIVE_FAILURES + [a] + [b]) == Apply(THREE, Apply(THREE, FIVE, a), b)
  {
    hide Apply;
    var s0 := State(ABSENT, map[]);
    FiveFailures();
    RunJoin(THREE, s0, FIVE_FAILURES, [a]);
    RunOne(THREE, FIVE, a);
    RunJoin(THREE, s0, FIVE_FAILURES + [a], [b]);
    RunOne(THREE, Apply(THREE, FIVE, a), b);
  }

  /** The fifth failure locks until 401; the EXPIRE of the third, landing after it, ends that at 102. */
  lemma LateLockoutShortens()
    ensures var s0 := State(ABSENT, map[]);
      && Stands(Run(THREE, s0, FIVE_FAILURES + [LandLockout(4, 1)]).key, 3, 401)
      && !LockedOut(Run(THREE, s0, FIVE_FAILURES + [LandLockout(4, 1)] + [LandLockout(2, 2)]).key, 3, 102)
  {
    TwoMore(LandLockout(4, 1), LandLockout(2, 2));
    assert Radix.Pow(2, 0) == 1 && Radix.Pow(2, 1) == 2 && Radix.Pow(2, 2) == 4;
    hide Run;
  }

  /** So does the first failure's EXPIRE of the plain window. */
  lemma LateWindowShortens()
    ensures var s0 := State(ABSENT, map[]);
      && Stands(Run(THREE, s0, FIVE_FAILURES + [LandLockout(4, 1)]).key, 3, 401)
      && !LockedOut(Run(THREE, s0, FIVE_FAILURES + [LandLockout(4, 1)] + [LandWindow(0, 2)]).key, 3, 102)
  {
    TwoMore(LandLockout(4, 1), LandWindow(0, 2));
    assert Radix.Pow(2, 1) == 2 && Radix.Pow(2, 2) == 4;
    hide Run;
  }
}
