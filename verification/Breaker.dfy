/** The circuit breaker and retry loop of packages/sdid-adapter/src/resilience.ts. Times are milliseconds. */
module Breaker {
  import Radix

  datatype Circuit = Closed | Open | HalfOpen
  /** The stored fields. */
  datatype Breaker = Breaker(circuit: Circuit, failures: int, openedAt: int, probe: bool)
  datatype Config = Config(threshold: int, resetMs: int)

  predicate ValidConfig(c: Config) { c.threshold >= 1 && c.resetMs >= 1 }

  const FRESH: Breaker := Breaker(Closed, 0, 0, false)

  /** The `state` getter: an open circuit reads as half-open once `resetMs` have passed. */
  function Shown(c: Config, b: Breaker, now: int): Circuit {
    if b.circuit == Open && now - b.openedAt >= c.resetMs then HalfOpen else b.circuit
  }

  predicate Admits(c: Config, b: Breaker, now: int) {
    match Shown(c, b, now) case Closed => true case Open => false case HalfOpen => !b.probe
  }

  function Attempted(c: Config, b: Breaker, now: int): Breaker {
    if Admits(c, b, now) && Shown(c, b, now) == HalfOpen then b.(circuit := HalfOpen, probe := true) else b
  }

  function Succeeded(b: Breaker): Breaker { b.(circuit := Closed, failures := 0, probe := false) }

  predicate Trips(c: Config, b: Breaker) { b.circuit == HalfOpen || b.failures + 1 >= c.threshold }

  function Failed(c: Config, b: Breaker, now: int): Breaker {
    if Trips(c, b) then Breaker(Open, 0, now, false) else b.(failures := b.failures + 1, probe := false)
  }

  class CircuitBreaker {
    const config: Config
    var circuit: Circuit
    var consecutiveFailures: int
    var openedAt: int
    var probeInFlight: bool

    function Value(): Breaker
      reads this
    {
      Breaker(circuit, consecutiveFailures, openedAt, probeInFlight)
    }

    constructor (config: Config)
      ensures this.config == config && Value() == FRESH
    {
      this.config := config;
      circuit, consecutiveFailures, openedAt, probeInFlight := Closed, 0, 0, false;
    }

    /** False where the source throws `SdidCircuitOpenError`. */
    method BeforeAttempt(now: int) returns (admitted: bool)
      modifies this
      ensures admitted == Admits(config, old(Value()), now) && Value() == Attempted(config, old(Value()), now)
    {
      var s := if circuit == Open && now - openedAt >= config.resetMs then HalfOpen else circuit;
      if s == Open { return false; }
      if s == HalfOpen {
        if probeInFlight { return false; }
        circuit, probeInFlight := HalfOpen, true;
      }
      return true;
    }

    method OnSuccess()
      modifies this
      ensures Value() == Succeeded(old(Value()))
    {
      circuit, consecutiveFailures, probeInFlight := Closed, 0, false;
    }

    method OnFailure(now: int)
      modifies this
      ensures Value() == Failed(config, old(Value()), now)
    {
      probeInFlight := false;
      if circuit == HalfOpen {
        Trip(now);
        return;
      }
      consecutiveFailures := consecutiveFailures + 1;
      if consecutiveFailures >= config.threshold { Trip(now); }
    }

    method Trip(now: int)
      modifies this`circuit, this`openedAt, this`consecutiveFailures
      ensures circuit == Open && openedAt == now && consecutiveFailures == 0
    {
      circuit, openedAt, consecutiveFailures := Open, now, 0;
    }
  }

  // ------------------------------------------ arbitrary orders of concurrent events

  /** Calls of any number of concurrent users, in the order they reach the breaker. */
  datatype Event = Attempt(now: int) | Success(now: int) | Failure(now: int)

  function After(c: Config, b: Breaker, e: Event): Breaker {
    match e
    case Attempt(now) => Attempted(c, b, now)
    case Success(_) => Succeeded(b)
    case Failure(now) => Failed(c, b, now)
  }

  function RunFrom(c: Config, b: Breaker, es: seq<Event>): Breaker {
    if es == [] then b else After(c, RunFrom(c, b, es[..|es| - 1]), es[|es| - 1])
  }

  function Run(c: Config, es: seq<Event>): Breaker { RunFrom(c, FRESH, es) }

  /** Failures since the last success or trip, counted from the events. */
  function FailuresSince(c: Config, es: seq<Event>): nat {
    if es == [] then 0
    else
      var front := es[..|es| - 1];
      match es[|es| - 1]
      case Attempt(_) => FailuresSince(c, front)
      case Success(_) => 0
      case Failure(_) => if Trips(c, Run(c, front)) then 0 else FailuresSince(c, front) + 1
  }

  /**
   * In every order of events: the stored state is half-open exactly while a probe is in flight, and the counter is the
   * number of failures since the last success or trip, always below the threshold.
   */
  lemma {:induction false} BreakerInvariant(c: Config, es: seq<Event>)
    requires ValidConfig(c)
    ensures Run(c, es).circuit == HalfOpen <==> Run(c, es).probe
    ensures Run(c, es).failures == FailuresSince(c, es) < c.threshold
  {
    if es != [] { BreakerInvariant(c, es[..|es| - 1]); }
  }

  /** Failures since the last success, whatever the circuit made of them. */
  function InARow(es: seq<Event>): nat {
    if es == [] then 0
    else
      match es[|es| - 1]
      case Attempt(_) => InARow(es[..|es| - 1])
      case Success(_) => 0
      case Failure(_) => InARow(es[..|es| - 1]) + 1
  }

  /** The circuit is closed exactly while fewer than `threshold` failures have come in a row. */
  lemma {:induction false} ClosedIff(c: Config, es: seq<Event>)
    requires ValidConfig(c)
    ensures Run(c, es).circuit == Closed <==> InARow(es) < c.threshold
    ensures Run(c, es).circuit == Closed ==> Run(c, es).failures == InARow(es)
  {
    if es != [] { ClosedIff(c, es[..|es| - 1]); }
  }

  /**
   * The failure that opens the circuit: from closed exactly the `threshold`-th in a row, from half-open any. The time
   * out starts with it.
   */
  lemma FailureOpens(c: Config, es: seq<Event>, now: int)
    requires ValidConfig(c)
    ensures var b, b' := Run(c, es), Run(c, es + [Failure(now)]);
      && (b.circuit == Closed ==> (b'.circuit == Open <==> InARow(es) + 1 == c.threshold))
      && (b.circuit == HalfOpen ==> b'.circuit == Open)
      && (b'.circuit != b.circuit ==> b'.circuit == Open && b'.openedAt == now)
  {
    assert (es + [Failure(now)])[..|es|] == es;
    ClosedIff(c, es);
    BreakerInvariant(c, es);
  }

  /**
   * Whom a reachable breaker admits: everyone while closed, nobody while a probe is out, and after a trip one attempt
   * from `resetMs` on. Being rejected changes nothing.
   */
  lemma {:induction false} AdmitsExactly(c: Config, es: seq<Event>, now: int)
    requires ValidConfig(c)
    ensures var b := Run(c, es);
      && (Admits(c, b, now) <==> b.circuit == Closed || (b.circuit == Open && now - b.openedAt >= c.resetMs))
      && (!Admits(c, b, now) ==> Attempted(c, b, now) == b)
      && (Admits(c, b, now) ==> Attempted(c, b, now).probe == (b.circuit == Open))
  {
    BreakerInvariant(c, es);
  }

  lemma RunStep(c: Config, es: seq<Event>, k: nat)
    requires k < |es|
    ensures Run(c, es[..k + 1]) == After(c, Run(c, es[..k]), es[k])
  {
    assert es[..k + 1][..k] == es[..k];
  }

  /**
   * After a half-open admission every other attempt is rejected until the next success or failure, whatever the clock
   * does.
   */
  lemma {:induction false} OneProbeAtATime(c: Config, es: seq<Event>, i: nat, j: nat)
    requires ValidConfig(c) && i < j < |es| && es[i].Attempt? && es[j].Attempt?
    requires Admits(c, Run(c, es[..i]), es[i].now) && Shown(c, Run(c, es[..i]), es[i].now) == HalfOpen
    requires forall k :: i < k < j ==> es[k].Attempt?
    ensures !Admits(c, Run(c, es[..j]), es[j].now) && Run(c, es[..j]).probe && Run(c, es[..j]).circuit == HalfOpen
    decreases j
  {
    hide Run, RunFrom;
    RunStep(c, es, j - 1);
    if i < j - 1 { OneProbeAtATime(c, es, i, j - 1); }
  }

  predicate Nondecreasing(es: seq<Event>) { forall i, j :: 0 <= i < j < |es| ==> es[i].now <= es[j].now }

  /**
   * A trip at event `i` keeps the circuit open, with every attempt rejected, for `resetMs` unless something succeeds.
   */
  lemma {:induction false} RejectsForResetMs(c: Config, es: seq<Event>, i: nat, j: nat)
    requires ValidConfig(c) && Nondecreasing(es) && i < j < |es|
    requires es[i].Failure? && Trips(c, Run(c, es[..i])) && es[j].now - es[i].now < c.resetMs
    requires forall k :: i < k < j ==> !es[k].Success?
    ensures Run(c, es[..j]).circuit == Open && Run(c, es[..j]).openedAt >= es[i].now
    ensures !Admits(c, Run(c, es[..j]), es[j].now)
    decreases j
  {
    hide Run, RunFrom;
    RunStep(c, es, j - 1);
    if i < j - 1 {
      assert es[j - 1].now <= es[j].now;
      RejectsForResetMs(c, es, i, j - 1);
    }
  }

  // --------------------------------------------------------------- outage bound

  /** One attempt of a sequential caller during an outage: when it is made and, if admitted, when it fails. */
  datatype Try = Try(at: int, failsAt: int)

  /** Attempts follow each other, each after the failure of the one before, all within `[from, to]`. */
  predicate Sequential(ts: seq<Try>, from: int, to: int) {
    ts == [] || (from <= ts[0].at <= to && ts[0].at <= ts[0].failsAt && Sequential(ts[1..], ts[0].at, to)
                 && (|ts| > 1 ==> ts[0].failsAt <= ts[1].at))
  }

  /** Inner calls the breaker lets through when every one of them fails. */
  function Calls(c: Config, b: Breaker, ts: seq<Try>): nat
    decreases |ts|
  {
    if ts == [] then 0
    else if Admits(c, b, ts[0].at) then 1 + Calls(c, Failed(c, Attempted(c, b, ts[0].at), ts[0].failsAt), ts[1..])
    else Calls(c, b, ts[1..])
  }

  /** How many half-open probes fit between `next` and `to`, one every `resetMs`. */
  function Probes(c: Config, next: int, to: int): int
    requires ValidConfig(c)
  {
    if next > to then 0 else 1 + (to - next) / c.resetMs
  }

  function Budget(c: Config, b: Breaker, from: int, to: int): int
    requires ValidConfig(c)
  {
    if b.circuit == Closed then c.threshold - b.failures + Probes(c, from + c.resetMs, to)
    else Probes(c, if from >= b.openedAt + c.resetMs then from else b.openedAt + c.resetMs, to)
  }

  /** Probes are monotone, and starting one reset later costs exactly one. */
  lemma ProbesShift(c: Config, next: int, later: int, to: int)
    requires ValidConfig(c) && next <= later
    ensures Probes(c, later, to) <= Probes(c, next, to)
    ensures next <= to ==> 1 + Probes(c, later + c.resetMs, to) <= Probes(c, next, to)
    ensures Probes(c, later, to) >= 0
  {
    if later <= to {
      DivMonotone(to - later, to - next, c.resetMs);
      if later + c.resetMs <= to { DivShift(to - later, c.resetMs); }
    }
  }

  lemma DivMonotone(a: nat, b: nat, d: nat)
    requires a <= b && d >= 1
    ensures 0 <= a / d <= b / d
  {
    if d >= 2 {
      var q := b / d;
      assert b == q * d + b % d && d * (q + 1) == q * d + d;
      Radix.QuotientBelow(d, a, q + 1);
    }
  }

  lemma DivShift(a: nat, d: nat)
    requires 1 <= d <= a
    ensures (a - d) / d == a / d - 1
  {
    if d >= 2 {
      var q, m := (a - d) / d, (a - d) % d;
      assert a - d == q * d + m;
      assert a == (q + 1) * d + m;
      Radix.DivUnique(d, q + 1, m);
    }
  }

  predicate Idle(c: Config, b: Breaker) { !b.probe && b.circuit != HalfOpen && 0 <= b.failures < c.threshold }

  lemma {:induction false} CallsWithinBudget(c: Config, b: Breaker, ts: seq<Try>, from: int, to: int)
    requires ValidConfig(c) && Idle(c, b) && Sequential(ts, from, to)
    ensures Calls(c, b, ts) <= Budget(c, b, from, to)
    decreases |ts|
  {
    hide Probes;
    if ts == [] {
      ProbesShift(c, from, from + c.resetMs, to);
      ProbesShift(c, from, from, to);
      ProbesShift(c, b.openedAt + c.resetMs, b.openedAt + c.resetMs, to);
    } else {
      var t := ts[0];
      if Admits(c, b, t.at) {
        var b' := Failed(c, Attempted(c, b, t.at), t.failsAt);
        NextSequential(ts, from, to);
        CallsWithinBudget(c, b', ts[1..], t.failsAt, to);
        StepBudget(c, b, t, from, to);
      } else {
        CallsWithinBudget(c, b, ts[1..], t.at, to);
        ProbesShift(c, from, t.at, to);
      }
    }
  }

  lemma NextSequential(ts: seq<Try>, from: int, to: int)
    requires ts != [] && Sequential(ts, from, to)
    ensures Sequential(ts[1..], ts[0].failsAt, to)
  {
  }

  lemma StepBudget(c: Config, b: Breaker, t: Try, from: int, to: int)
    requires ValidConfig(c) && Idle(c, b) && from <= t.at <= to && t.at <= t.failsAt && Admits(c, b, t.at)
    ensures var b' := Failed(c, Attempted(c, b, t.at), t.failsAt);
      Idle(c, b') && 1 + Budget(c, b', t.failsAt, to) <= Budget(c, b, from, to)
  {
    hide Probes;
    var b' := Failed(c, Attempted(c, b, t.at), t.failsAt);
    if b.circuit == Closed {
      ProbesShift(c, from + c.resetMs, t.failsAt + c.resetMs, to);
    } else {
      ProbesShift(c, if from >= b.openedAt + c.resetMs then from else b.openedAt + c.resetMs, t.failsAt, to);
    }
  }

  /** While someone else's probe is out nobody gets through. */
  lemma {:induction false} NoneAdmitted(c: Config, b: Breaker, ts: seq<Try>)
    requires b.circuit == HalfOpen && b.probe
    ensures Calls(c, b, ts) == 0
    decreases |ts|
  {
    if ts != [] { NoneAdmitted(c, b, ts[1..]); }
  }

  /**
   * Outage bound: for a sequential caller and a nondecreasing clock, with every attempt failing, the inner calls
   * started in any interval of length `T` number at most `threshold + floor(T / resetMs)`, whatever events came before.
   */
  lemma OutageBound(c: Config, es: seq<Event>, ts: seq<Try>, from: int, T: nat)
    requires ValidConfig(c) && Sequential(ts, from, from + T)
    ensures Calls(c, Run(c, es), ts) <= c.threshold + T / c.resetMs
  {
    hide Run, RunFrom;
    var b := Run(c, es);
    DivMonotone(0, T, c.resetMs);
    BreakerInvariant(c, es);
    if b.probe {
      NoneAdmitted(c, b, ts);
      return;
    }
    CallsWithinBudget(c, b, ts, from, from + T);
    var to := from + T;
    if b.circuit == Closed {
      if from + c.resetMs <= to { DivShift(T, c.resetMs); }
    } else {
      ProbesShift(c, from, if from >= b.openedAt + c.resetMs then from else b.openedAt + c.resetMs, to);
    }
  }

  // ------------------------------------------------------------------ the retry loop

  datatype Outcome = Answered | UnknownIdentity | Misconfigured | Faulted
  /**
   * What the outside does to one attempt: what other callers do to the breaker before it, when it is made, what they do
   * while it is out, how and when it ends.
   */
  datatype Trial = Trial(waiting: seq<Event>, at: int, meanwhile: seq<Event>, endsAt: int, outcome: Outcome)
  datatype Verdict = Value | Unknown | Unconfigured | Rejected | Exhausted

  /** The breaker when attempt `n` is made; all before it were admitted and faulted. */
  function Before(c: Config, b: Breaker, ts: seq<Trial>, n: nat): Breaker
    requires n < |ts|
    decreases n, 1
  {
    RunFrom(c, AfterFaults(c, b, ts, n), ts[n].waiting)
  }

  /** The breaker when admitted attempt `n` comes back. */
  function Returning(c: Config, b: Breaker, ts: seq<Trial>, n: nat): Breaker
    requires n < |ts|
    decreases n, 2
  {
    RunFrom(c, Attempted(c, Before(c, b, ts, n), ts[n].at), ts[n].meanwhile)
  }

  function AfterFaults(c: Config, b: Breaker, ts: seq<Trial>, n: nat): Breaker
    requires n <= |ts|
    decreases n, 0
  {
    if n == 0 then b else Failed(c, Returning(c, b, ts, n - 1), ts[n - 1].endsAt)
  }

  /** One trial, from the breaker before other callers moved it to the breaker after its fault. */
  lemma TrialStep(c: Config, b: Breaker, ts: seq<Trial>, n: nat)
    requires n < |ts|
    ensures Before(c, b, ts, n) == RunFrom(c, AfterFaults(c, b, ts, n), ts[n].waiting)
    ensures Returning(c, b, ts, n) == RunFrom(c, Attempted(c, Before(c, b, ts, n), ts[n].at), ts[n].meanwhile)
    ensures AfterFaults(c, b, ts, n + 1) == Failed(c, Returning(c, b, ts, n), ts[n].endsAt)
  {
  }

  /** The breaker, as others left it, admitted attempt `n`. */
  predicate AdmittedAt(c: Config, b: Breaker, ts: seq<Trial>, n: nat)
    requires n < |ts|
  {
    Admits(c, Before(c, b, ts, n), ts[n].at)
  }

  /** The first `n` attempts were admitted and faulted. */
  predicate Faults(c: Config, b: Breaker, ts: seq<Trial>, n: nat)
    requires n <= |ts|
  {
    forall i :: 0 <= i < n ==> AdmittedAt(c, b, ts, i) && ts[i].outcome == Faulted
  }

  /** Attempt `n`, admitted after `n` faults, came back with this outcome and left the breaker so. */
  predicate CameBack(c: Config, b: Breaker, ts: seq<Trial>, n: int, o: Outcome, b': Breaker) {
    && 0 <= n < |ts| && Faults(c, b, ts, n) && AdmittedAt(c, b, ts, n) && ts[n].outcome == o
    && b' == if o == Misconfigured then Returning(c, b, ts, n) else Succeeded(Returning(c, b, ts, n))
  }

  /**
   * How `execute` ends. Both definite answers close the circuit; a configuration error leaves the breaker as it finds
   * it; a rejection is the breaker's own; and otherwise every trial has faulted.
   */
  predicate Ended(c: Config, b: Breaker, ts: seq<Trial>, v: Verdict, calls: nat, b': Breaker) {
    match v
    case Value => CameBack(c, b, ts, calls - 1, Answered, b')
    case Unknown => CameBack(c, b, ts, calls - 1, UnknownIdentity, b')
    case Unconfigured => CameBack(c, b, ts, calls - 1, Misconfigured, b')
    case Rejected =>
      calls < |ts| && Faults(c, b, ts, calls) && !AdmittedAt(c, b, ts, calls) && b' == Before(c, b, ts, calls)
    case Exhausted => calls == |ts| && Faults(c, b, ts, calls) && b' == AfterFaults(c, b, ts, calls)
  }

  /** Other callers of the same breaker. */
  method Others(breaker: CircuitBreaker, es: seq<Event>)
    modifies breaker
    ensures breaker.Value() == RunFrom(breaker.config, old(breaker.Value()), es)
  {
    for n := 0 to |es|
      invariant breaker.Value() == RunFrom(breaker.config, old(breaker.Value()), es[..n])
    {
      match es[n] {
        case Attempt(now) => var _ := breaker.BeforeAttempt(now);
        case Success(_) => breaker.OnSuccess();
        case Failure(now) => breaker.OnFailure(now);
      }
      assert es[..n + 1][..n] == es[..n];
    }
    assert es[..|es|] == es;
  }

  /**
   * `execute` with `retries + 1` trials on offer, among any number of other callers: at most that many inner calls,
   * each admitted by the breaker as it then stood, retrying only after faults, never past a rejection, an answer, an
   * unknown identity or a configuration error.
   */
  method Execute(breaker: CircuitBreaker, ts: seq<Trial>) returns (v: Verdict, calls: nat)
    modifies breaker
    ensures calls <= |ts| && Ended(breaker.config, old(breaker.Value()), ts, v, calls, breaker.Value())
  {
    calls := 0;
    ghost var c, b := breaker.config, breaker.Value();
    assert AfterFaults(c, b, ts, 0) == b;
    for n := 0 to |ts|
      invariant calls == n && Faults(c, b, ts, n) && breaker.Value() == AfterFaults(c, b, ts, n)
    {
      hide RunFrom, Admits, Attempted, Failed, Succeeded, AfterFaults, Before, Returning;
      TrialStep(c, b, ts, n);
      Others(breaker, ts[n].waiting);
      var admitted := breaker.BeforeAttempt(ts[n].at);
      assert admitted == AdmittedAt(c, b, ts, n);
      if !admitted {
        RejectedUnmoved(c, Before(c, b, ts, n), ts[n].at);
        return Rejected, calls;
      }
      calls := calls + 1;
      Others(breaker, ts[n].meanwhile);
      match ts[n].outcome {
        case Answered =>
          breaker.OnSuccess();
          return Value, calls;
        case Misconfigured => return Unconfigured, calls;
        case UnknownIdentity =>
          breaker.OnSuccess();
          return Unknown, calls;
        case Faulted => breaker.OnFailure(ts[n].endsAt);
      }
    }
    return Exhausted, calls;
  }

  lemma RejectedUnmoved(c: Config, b: Breaker, now: int)
    requires !Admits(c, b, now)
    ensures Attempted(c, b, now) == b
  {
  }

  /**
   * How a call leaves the breaker: closed with a clear count after a definite answer, whatever the circuit was; and
   * after nothing but faults it made every attempt it may.
   */
  lemma AnswersClose(c: Config, b: Breaker, ts: seq<Trial>, v: Verdict, calls: nat, b': Breaker)
    requires Ended(c, b, ts, v, calls, b')
    ensures v.Value? || v.Unknown? ==> b'.circuit == Closed && b'.failures == 0 && !b'.probe
    ensures v.Exhausted? ==> calls == |ts| && forall i :: 0 <= i < |ts| ==> ts[i].outcome == Faulted
    ensures v.Rejected? ==> calls < |ts| && forall i :: 0 <= i < calls ==> ts[i].outcome == Faulted
    ensures calls > 0 && !v.Exhausted? && !v.Rejected? ==> ts[calls - 1].outcome != Faulted
  {
    hide Before, Returning, AfterFaults, AdmittedAt;
  }
}
