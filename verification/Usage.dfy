/**
 * Key-usage accounting of apps/broker/src/keys/keys.service.ts: tallies kept in memory, reported in summaries that are
 * appended across an `await` during which signing goes on.
 */
module Usage {

  type Kid = string

  const FAILURE_AUDIT_INTERVAL_MS: int := 60_000

  datatype Field = Signatures | ProbeSignatures | Failures | SuppressedFailureRows

  datatype Tally = Tally(signatures: int, probes: int, failures: int, suppressed: int)

  function Plus(a: Tally, b: Tally): Tally {
    Tally(a.signatures + b.signatures, a.probes + b.probes, a.failures + b.failures, a.suppressed + b.suppressed)
  }

  function Minus(a: Tally, b: Tally): Tally {
    Tally(a.signatures - b.signatures, a.probes - b.probes, a.failures - b.failures, a.suppressed - b.suppressed)
  }

  predicate AtLeast(a: Tally, b: Tally) {
    a.signatures >= b.signatures && a.probes >= b.probes && a.failures >= b.failures && a.suppressed >= b.suppressed
  }

  const ZERO: Tally := Tally(0, 0, 0, 0)

  function One(f: Field): Tally {
    match f
    case Signatures => Tally(1, 0, 0, 0)
    case ProbeSignatures => Tally(0, 1, 0, 0)
    case Failures => Tally(0, 0, 1, 0)
    case SuppressedFailureRows => Tally(0, 0, 0, 1)
  }

  type Book = map<Kid, Tally>

  function Get(b: Book, kid: Kid): Tally { if kid in b then b[kid] else ZERO }

  function Add(b: Book, kid: Kid, t: Tally): Book { b[kid := Plus(Get(b, kid), t)] }

  /** What a committed summary takes out of the tallies; a tally that comes to nothing is dropped. */
  function Settle(b: Book, reported: Book): Book {
    map kid | kid in b && (kid in reported ==> b[kid] != reported[kid]) ::
      if kid in reported then Minus(b[kid], reported[kid]) else b[kid]
  }

  function AddAll(b: Book, reported: Book): Book {
    map kid | kid in b.Keys + reported.Keys :: Plus(Get(b, kid), Get(reported, kid))
  }

  lemma AddAt(b: Book, kid: Kid, t: Tally, k: Kid)
    ensures Get(Add(b, kid, t), k) == if k == kid then Plus(Get(b, k), t) else Get(b, k)
  {
  }

  lemma AddTwice(b: Book, kid: Kid, t: Tally, u: Tally)
    ensures Add(Add(b, kid, t), kid, u) == Add(b, kid, Plus(t, u))
  {
  }

  lemma PlusLaws(a: Tally, b: Tally, c: Tally)
    ensures Plus(Plus(a, b), c) == Plus(a, Plus(b, c)) == Plus(Plus(a, c), b) && Plus(a, Minus(b, a)) == b
    ensures Plus(a, b) == Plus(a, c) <==> b == c
  {
  }

  // ----------------------------------------------------------- the service

  datatype Report = Report(kid: Kid, tally: Tally)

  predicate Distinct(keys: seq<Report>) { forall i, j :: 0 <= i < j < |keys| ==> keys[i].kid != keys[j].kid }

  /** The reports as a map. */
  function BookOf(keys: seq<Report>): Book {
    if keys == [] then map[] else BookOf(keys[..|keys| - 1])[keys[|keys| - 1].kid := keys[|keys| - 1].tally]
  }

  lemma {:induction false} InBook(keys: seq<Report>, kid: Kid)
    ensures kid in BookOf(keys) <==> exists i :: 0 <= i < |keys| && keys[i].kid == kid
  {
    if keys != [] {
      var front := keys[..|keys| - 1];
      InBook(front, kid);
      if kid in BookOf(front) {
        var i :| 0 <= i < |front| && front[i].kid == kid;
        assert keys[i].kid == kid;
      }
      if exists i :: 0 <= i < |keys| && keys[i].kid == kid {
        var i :| 0 <= i < |keys| && keys[i].kid == kid;
        if i < |front| { assert front[i].kid == kid; }
      }
    }
  }

  class KeyUsage {
    var usage: Book
    var lastFailureAuditAt: map<Kid, int>

    constructor ()
      ensures usage == map[] && lastFailureAuditAt == map[]
    {
      usage, lastFailureAuditAt := map[], map[];
    }

    method Tally(kid: Kid, field: Field)
      modifies this`usage
      ensures usage == Add(old(usage), kid, One(field))
    {
      var tally := if kid in usage then usage[kid] else ZERO;
      match field {
        case Signatures => tally := tally.(signatures := tally.signatures + 1);
        case ProbeSignatures => tally := tally.(probes := tally.probes + 1);
        case Failures => tally := tally.(failures := tally.failures + 1);
        case SuppressedFailureRows => tally := tally.(suppressed := tally.suppressed + 1);
      }
      usage := usage[kid := tally];
    }

    /** `recordSigningFailure`: whether this failure gets a row of its own, or is only counted as suppressed. */
    method RecordSigningFailure(kid: Kid, now: int) returns (audits: bool)
      modifies this
      ensures audits == Audits(old(lastFailureAuditAt), kid, now)
      ensures usage == Add(old(usage), kid, FailureTally(audits))
      ensures lastFailureAuditAt == if audits then old(lastFailureAuditAt)[kid := now] else old(lastFailureAuditAt)
    {
      hide Add, Get, Plus, One;
      Tally(kid, Failures);
      var last := if kid in lastFailureAuditAt then lastFailureAuditAt[kid] else 0;
      if now - last < FAILURE_AUDIT_INTERVAL_MS {
        Tally(kid, SuppressedFailureRows);
        AddTwice(old(usage), kid, One(Failures), One(SuppressedFailureRows));
        return false;
      }
      lastFailureAuditAt := lastFailureAuditAt[kid := now];
      return true;
    }

    /** The loop after a committed append: subtract what was reported, drop what comes to nothing. */
    method SettleReported(keys: seq<Report>)
      requires Distinct(keys)
      modifies this`usage
      ensures usage == Settle(old(usage), BookOf(keys))
    {
      ghost var before := usage;
      SettleNothing(usage);
      assert keys[..0] == [];
      for i := 0 to |keys|
        invariant usage == Settle(before, BookOf(keys[..i]))
      {
        var reported := keys[i];
        SettleOne(before, keys, i);
        if reported.kid in usage {
          var tally := Minus(usage[reported.kid], reported.tally);
          if tally == ZERO { usage := usage - {reported.kid}; } else { usage := usage[reported.kid := tally]; }
        }
      }
      assert keys[..|keys|] == keys;
    }
  }

  lemma SettleNothing(b: Book)
    ensures Settle(b, map[]) == b
  {
  }

  /** One more report settles one more tally. */
  lemma SettleOne(b: Book, keys: seq<Report>, i: nat)
    requires Distinct(keys) && i < |keys|
    ensures var u, kid, t := Settle(b, BookOf(keys[..i])), keys[i].kid, keys[i].tally;
      Settle(b, BookOf(keys[..i + 1])) ==
      (if kid !in u then u else if Minus(u[kid], t) == ZERO then u - {kid} else u[kid := Minus(u[kid], t)])
  {
    var r, kid, t := BookOf(keys[..i]), keys[i].kid, keys[i].tally;
    assert keys[..i + 1][..i] == keys[..i];
    InBook(keys[..i], kid);
    assert kid !in r;
    hide BookOf;
    assert BookOf(keys[..i + 1]) == r[kid := t] by { BookStep(keys, i); }
    if kid in b { MinusZero(b[kid], t); }
  }

  lemma BookStep(keys: seq<Report>, i: nat)
    requires i < |keys|
    ensures BookOf(keys[..i + 1]) == BookOf(keys[..i])[keys[i].kid := keys[i].tally]
  {
    assert keys[..i + 1][..i] == keys[..i];
  }

  lemma MinusZero(a: Tally, b: Tally)
    ensures Minus(a, b) == ZERO <==> a == b
  {
  }

  predicate Audits(last: map<Kid, int>, kid: Kid, now: int) {
    now - (if kid in last then last[kid] else 0) >= FAILURE_AUDIT_INTERVAL_MS
  }

  function FailureTally(audits: bool): Tally {
    if audits then One(Failures) else Plus(One(Failures), One(SuppressedFailureRows))
  }

  // ------------------------------------------------- runs: flushes across an await

  type Flush = nat

  /**
   * `open` holds the snapshot of every flush waiting for its append. `happened`, `committed` and `audited` are history:
   * what was signed or failed, what committed summaries say, and when a failure row was attempted.
   */
  datatype State = State(
    usage: Book, last: map<Kid, int>, open: map<Flush, Book>,
    happened: Book, committed: Book, audited: map<Kid, seq<int>>)

  datatype Step =
    | Sign(kid: Kid, probe: bool)
    | Fail(kid: Kid, now: int)
    | BeginFlush(f: Flush)
    | AppendCommits(f: Flush)
    | AppendFails(f: Flush)

  const START: State := State(map[], map[], map[], map[], map[], map[])

  function Times(a: map<Kid, seq<int>>, kid: Kid): seq<int> { if kid in a then a[kid] else [] }

  function Apply(s: State, step: Step): State {
    match step
    case Sign(kid, probe) =>
      var t := One(if probe then ProbeSignatures else Signatures);
      s.(usage := Add(s.usage, kid, t), happened := Add(s.happened, kid, t))
    case Fail(kid, now) =>
      var audits := Audits(s.last, kid, now);
      var t := FailureTally(audits);
      s.(usage := Add(s.usage, kid, t), happened := Add(s.happened, kid, t),
         last := if audits then s.last[kid := now] else s.last,
         audited := if audits then s.audited[kid := Times(s.audited, kid) + [now]] else s.audited)
    case BeginFlush(f) =>
      if f in s.open || s.usage == map[] then s else s.(open := s.open[f := s.usage])
    case AppendCommits(f) =>
      if f !in s.open then s
      else s.(open := s.open - {f}, usage := Settle(s.usage, s.open[f]), committed := AddAll(s.committed, s.open[f]))
    case AppendFails(f) => s.(open := s.open - {f})
  }

  function Run(steps: seq<Step>): State {
    if steps == [] then START else Apply(Run(steps[..|steps| - 1]), steps[|steps| - 1])
  }

  /** No flush begins while another waits. */
  predicate NonOverlapping(steps: seq<Step>) {
    steps == [] ||
    (NonOverlapping(steps[..|steps| - 1])
     && (steps[|steps| - 1].BeginFlush? ==> Run(steps[..|steps| - 1]).open == map[]))
  }

  /** For every kid and field: what happened is what was reported plus what is pending. */
  ghost predicate Conserved(s: State) {
    forall kid :: Balanced(s, kid)
  }

  predicate Balanced(s: State, kid: Kid) { Get(s.happened, kid) == Plus(Get(s.committed, kid), Get(s.usage, kid)) }

  lemma SettledAt(b: Book, reported: Book, kid: Kid)
    ensures Get(Settle(b, reported), kid)
         == (if kid in b && kid in reported then Minus(b[kid], reported[kid]) else Get(b, kid))
  {
    if kid in b && kid in reported { MinusZero(b[kid], reported[kid]); }
  }

  /** Reports of something that are no longer in the tallies. */
  predicate Lost(b: Book, reported: Book, kid: Kid) { kid in reported && reported[kid] != ZERO && kid !in b }

  /**
   * The exact condition for one commit, in any state: from a balanced state, committing the snapshot keeps the balance
   * if and only if every non-empty report's tally is still there.
   */
  lemma CommitConservesIff(s: State, f: Flush)
    requires f in s.open && Conserved(s)
    ensures Conserved(Apply(s, AppendCommits(f))) <==> forall kid :: !Lost(s.usage, s.open[f], kid)
  {
    hide Settle, AddAll, Get, Plus, Lost;
    var r := s.open[f];
    var s' := Apply(s, AppendCommits(f));
    forall kid ensures Balanced(s', kid) <==> !Lost(s.usage, r, kid) {
      assert Balanced(s, kid);
      CommitAt(s.happened, s.committed, s.usage, r, kid);
    }
  }

  lemma CommitAt(happened: Book, committed: Book, usage: Book, reported: Book, kid: Kid)
    requires Get(happened, kid) == Plus(Get(committed, kid), Get(usage, kid))
    ensures Get(happened, kid) == Plus(Get(AddAll(committed, reported), kid), Get(Settle(usage, reported), kid))
       <==> !Lost(usage, reported, kid)
  {
    hide Settle, AddAll, Plus, Minus;
    SettledAt(usage, reported, kid);
    AddedAt(committed, reported, kid);
    PlusZero(Get(committed, kid), Get(usage, kid), Get(reported, kid));
  }

  lemma PlusZero(c: Tally, u: Tally, r: Tally)
    ensures Plus(Plus(c, r), u) == Plus(c, u) <==> r == ZERO
    ensures Plus(Plus(c, r), Minus(u, r)) == Plus(c, u)
  {
  }

  lemma AddedAt(b: Book, reported: Book, kid: Kid)
    ensures Get(AddAll(b, reported), kid) == Plus(Get(b, kid), Get(reported, kid))
  {
  }

  // ----------------------------------------------- when nothing is reported twice

  ghost predicate NonNegative(b: Book) { forall kid :: AtLeast(Get(b, kid), ZERO) }

  /** Everything a report says is still in the tallies. */
  ghost predicate Backed(b: Book, reported: Book) { forall kid :: AtLeast(Get(b, kid), Get(reported, kid)) }

  /** Every event is reported or pending, once: the books balance and no tally has been overdrawn. */
  ghost predicate Sound(s: State) { Conserved(s) && NonNegative(s.usage) }

  /** Balance and overdraft of one kid's tallies after a commit. */
  lemma SettlesSoundly(happened: Book, committed: Book, usage: Book, reported: Book, kid: Kid)
    requires Get(happened, kid) == Plus(Get(committed, kid), Get(usage, kid))
    requires AtLeast(Get(usage, kid), ZERO) && AtLeast(Get(reported, kid), ZERO)
    ensures var usage' := Settle(usage, reported);
      Get(happened, kid) == Plus(Get(AddAll(committed, reported), kid), Get(usage', kid))
          && AtLeast(Get(usage', kid), ZERO)
      <==> AtLeast(Get(usage, kid), Get(reported, kid))
  {
    hide Settle, AddAll, Plus, Minus, AtLeast;
    SettledAt(usage, reported, kid);
    AddedAt(committed, reported, kid);
    PlusZero(Get(committed, kid), Get(usage, kid), Get(reported, kid));
    MinusCovers(Get(usage, kid), Get(reported, kid));
  }

  lemma MinusCovers(u: Tally, r: Tally)
    ensures AtLeast(Minus(u, r), ZERO) <==> AtLeast(u, r)
    ensures AtLeast(r, ZERO) && AtLeast(ZERO, r) <==> r == ZERO
    ensures AtLeast(u, ZERO) && r == ZERO ==> AtLeast(u, r)
  {
  }

  /**
   * The exact condition for one commit, in any sound state: it stays sound, each event reported or pending once and no
   * tally below zero, if and only if the tallies still back the whole report.
   */
  lemma CommitSoundIff(s: State, f: Flush)
    requires f in s.open && Sound(s) && NonNegative(s.open[f])
    ensures Sound(Apply(s, AppendCommits(f))) <==> Backed(s.usage, s.open[f])
  {
    hide Settle, AddAll, Get, Plus, AtLeast;
    var r, s' := s.open[f], Apply(s, AppendCommits(f));
    forall kid
      ensures Balanced(s', kid) && AtLeast(Get(s'.usage, kid), ZERO) <==> AtLeast(Get(s.usage, kid), Get(r, kid))
    {
      assert Balanced(s, kid);
      SettlesSoundly(s.happened, s.committed, s.usage, r, kid);
    }
  }

  /** A commit whose report the tallies no longer back. */
  ghost predicate Overdraws(s: State, step: Step) {
    step.AppendCommits? && step.f in s.open && !Backed(s.usage, s.open[step.f])
  }

  /** Sound, with sound snapshots waiting. */
  ghost predicate SoundSoFar(s: State) { Sound(s) && forall f | f in s.open :: NonNegative(s.open[f]) }

  lemma AddSound(s: State, kid: Kid, t: Tally)
    requires Sound(s) && AtLeast(t, ZERO)
    ensures Sound(s.(usage := Add(s.usage, kid, t), happened := Add(s.happened, kid, t)))
  {
    hide Add, Get;
    var s' := s.(usage := Add(s.usage, kid, t), happened := Add(s.happened, kid, t));
    forall k ensures Balanced(s', k) && AtLeast(Get(s'.usage, k), ZERO) {
      assert Balanced(s, k);
      AddBalanced(s, kid, t, k);
      AddAt(s.usage, kid, t, k);
    }
  }

  lemma SameSound(s: State, s': State)
    requires s'.usage == s.usage && s'.happened == s.happened && s'.committed == s.committed
    ensures Sound(s') <==> Sound(s)
  {
    hide Get, Plus, AtLeast;
    assert forall kid :: Balanced(s', kid) <==> Balanced(s, kid);
  }

  /** Any step but an overdraft keeps the books sound, and an overdraft breaks them. */
  lemma StepSoundIff(s: State, step: Step)
    requires SoundSoFar(s)
    ensures SoundSoFar(Apply(s, step)) <==> !Overdraws(s, step)
    ensures Sound(Apply(s, step)) <==> !Overdraws(s, step)
  {
    hide Sound, Settle, AddAll, Add, AtLeast, Plus, NonNegative, Backed;
    match step
    case Sign(kid, probe) =>
      OnesCount(probe);
      AddSound(s, kid, One(if probe then ProbeSignatures else Signatures));
    case Fail(kid, now) =>
      var t := FailureTally(Audits(s.last, kid, now));
      OnesCount(Audits(s.last, kid, now));
      AddSound(s, kid, t);
      SameSound(s.(usage := Add(s.usage, kid, t), happened := Add(s.happened, kid, t)), Apply(s, step));
    case BeginFlush(f) =>
      SameSound(s, Apply(s, step));
      SoundUsage(s);
    case AppendCommits(f) => if f in s.open { CommitSoundIff(s, f); }
    case AppendFails(f) => SameSound(s, Apply(s, step));
  }

  lemma SoundUsage(s: State)
    requires Sound(s)
    ensures NonNegative(s.usage)
  {
  }

  /** No commit of the run overdraws. */
  ghost predicate NeverOverdraws(steps: seq<Step>) {
    steps == [] ||
    (NeverOverdraws(steps[..|steps| - 1]) && !Overdraws(Run(steps[..|steps| - 1]), steps[|steps| - 1]))
  }

  /** The books are sound after the run and before each of its steps. */
  ghost predicate AlwaysSound(steps: seq<Step>) {
    Sound(Run(steps)) && (steps != [] ==> AlwaysSound(steps[..|steps| - 1]))
  }

  /**
   * The exact condition for whole runs, overlapping flushes included: the books stay sound throughout if and only if
   * every commit finds its whole report still in the tallies.
   */
  lemma {:induction false} RunSoundIff(steps: seq<Step>)
    ensures AlwaysSound(steps) <==> NeverOverdraws(steps)
    ensures AlwaysSound(steps) ==> SoundSoFar(Run(steps))
  {
    hide Sound, Overdraws, SoundSoFar;
    if steps == [] {
      StartSound();
    } else {
      hide Apply;
      var front := steps[..|steps| - 1];
      RunSoundIff(front);
      if AlwaysSound(front) { StepSoundIff(Run(front), steps[|steps| - 1]); }
    }
  }

  lemma StartSound()
    ensures SoundSoFar(START) && Sound(START)
  {
  }

  // -------------------------------------------------------------- the invariant

  /** A waiting snapshot is still covered by the tallies. */
  ghost predicate Covered(b: Book, reported: Book) {
    forall kid | kid in reported :: kid in b && AtLeast(b[kid], reported[kid])
  }

  /** No tally is negative, and none that came to nothing is kept. */
  ghost predicate Sane(b: Book) { forall kid | kid in b :: AtLeast(b[kid], ZERO) && b[kid] != ZERO }

  ghost predicate Inv(s: State) {
    && Conserved(s) && Sane(s.usage)
    && (forall f, g | f in s.open && g in s.open :: f == g)
    && (forall f | f in s.open :: Sane(s.open[f]) && Covered(s.usage, s.open[f]))
  }

  lemma AddBalanced(s: State, kid: Kid, t: Tally, k: Kid)
    requires Balanced(s, k)
    ensures Balanced(s.(usage := Add(s.usage, kid, t), happened := Add(s.happened, kid, t)), k)
  {
    hide Add, Get;
    AddAt(s.usage, kid, t, k);
    AddAt(s.happened, kid, t, k);
    PlusLaws(Get(s.committed, k), Get(s.usage, k), t);
  }

  lemma AddCovered(b: Book, kid: Kid, t: Tally, reported: Book)
    requires AtLeast(t, ZERO) && t != ZERO && Sane(b) && Covered(b, reported)
    ensures Sane(Add(b, kid, t)) && Covered(Add(b, kid, t), reported)
  {
  }

  lemma AddKeeps(s: State, kid: Kid, t: Tally)
    requires Inv(s) && AtLeast(t, ZERO) && t != ZERO
    ensures Inv(s.(usage := Add(s.usage, kid, t), happened := Add(s.happened, kid, t)))
  {
    hide Add, Balanced, Sane, Covered, AtLeast;
    var s' := s.(usage := Add(s.usage, kid, t), happened := Add(s.happened, kid, t));
    forall k ensures Balanced(s', k) { AddBalanced(s, kid, t, k); }
    AddCovered(s.usage, kid, t, map[]) by { assert Covered(s.usage, map[]) by { NothingCovered(s.usage); } }
    forall f | f in s'.open ensures Covered(s'.usage, s'.open[f]) { AddCovered(s.usage, kid, t, s.open[f]); }
  }

  lemma NothingCovered(b: Book)
    ensures Covered(b, map[])
  {
  }

  lemma SettleSane(b: Book, reported: Book)
    requires Sane(b) && Covered(b, reported)
    ensures Sane(Settle(b, reported)) && forall kid :: !Lost(b, reported, kid)
  {
    forall kid | kid in b && kid in reported ensures Minus(b[kid], reported[kid]) == ZERO <==> b[kid] == reported[kid] {
      MinusZero(b[kid], reported[kid]);
    }
  }

  lemma CommitKeeps(s: State, f: Flush)
    requires Inv(s) && f in s.open
    ensures Inv(Apply(s, AppendCommits(f)))
  {
    hide Conserved, Settle, AddAll, Sane, Covered, Lost;
    SettleSane(s.usage, s.open[f]);
    CommitConservesIff(s, f);
    assert Apply(s, AppendCommits(f)).open == map[];
  }

  lemma SnapshotCovered(b: Book)
    requires Sane(b)
    ensures Covered(b, b)
  {
  }

  lemma BeginKeeps(s: State, f: Flush)
    requires Inv(s) && s.open == map[]
    ensures Inv(Apply(s, BeginFlush(f)))
  {
    hide Sane, Covered, Get, Plus;
    SnapshotCovered(s.usage);
    forall kid ensures Balanced(Apply(s, BeginFlush(f)), kid) { assert Balanced(s, kid); }
  }

  lemma StepKeeps(s: State, step: Step)
    requires Inv(s) && (step.BeginFlush? ==> s.open == map[])
    ensures Inv(Apply(s, step))
  {
    hide Balanced, Sane, Covered, Settle, AddAll, Add, AtLeast, Plus;
    match step
    case Sign(kid, probe) =>
      OnesCount(probe);
      AddKeeps(s, kid, One(if probe then ProbeSignatures else Signatures));
    case Fail(kid, now) =>
      var t := FailureTally(Audits(s.last, kid, now));
      OnesCount(Audits(s.last, kid, now));
      AddKeeps(s, kid, t);
      SameBalance(s.(usage := Add(s.usage, kid, t), happened := Add(s.happened, kid, t)), Apply(s, step));
    case BeginFlush(f) => BeginKeeps(s, f);
    case AppendCommits(f) => if f in s.open { CommitKeeps(s, f); }
    case AppendFails(f) => SameBalance(s, Apply(s, step));
  }

  /** The invariant is about books and open flushes only; a flush may also give up. */
  lemma SameBalance(s: State, s': State)
    requires Inv(s) && s'.usage == s.usage && s'.happened == s.happened && s'.committed == s.committed
    requires forall f | f in s'.open :: f in s.open && s'.open[f] == s.open[f]
    ensures Inv(s')
  {
    hide Get, Plus, Sane, Covered;
    forall kid ensures Balanced(s', kid) { assert Balanced(s, kid); }
  }

  lemma OnesCount(b: bool)
    ensures AtLeast(One(if b then ProbeSignatures else Signatures), ZERO) && AtLeast(FailureTally(b), ZERO)
    ensures One(if b then ProbeSignatures else Signatures) != ZERO && FailureTally(b) != ZERO
  {
  }

  lemma {:induction false} RunInv(steps: seq<Step>)
    requires NonOverlapping(steps)
    ensures Inv(Run(steps))
  {
    if steps == [] {
    } else {
      RunInv(steps[..|steps| - 1]);
      hide Inv, Apply;
      StepKeeps(Run(steps[..|steps| - 1]), steps[|steps| - 1]);
    }
  }

  lemma ConservedAt(s: State, kid: Kid)
    requires Inv(s)
    ensures Balanced(s, kid) && AtLeast(Get(s.usage, kid), ZERO)
    ensures kid in s.usage <==> Get(s.happened, kid) != Get(s.committed, kid)
  {
    hide Covered, Plus;
    assert Balanced(s, kid);
    PlusIsSame(Get(s.committed, kid), Get(s.usage, kid));
  }

  lemma PlusIsSame(a: Tally, b: Tally)
    ensures Plus(a, b) == a <==> b == ZERO
  {
  }

  /** How many of the steps signed with the kid, for a probe or not, and how many failed to. */
  function Signs(steps: seq<Step>, kid: Kid, probe: bool): nat {
    if steps == [] then 0
    else Signs(steps[..|steps| - 1], kid, probe) + (if steps[|steps| - 1] == Sign(kid, probe) then 1 else 0)
  }

  function Fails(steps: seq<Step>, kid: Kid): nat {
    if steps == [] then 0
    else
      var last := steps[|steps| - 1];
      Fails(steps[..|steps| - 1], kid) + (if last.Fail? && last.kid == kid then 1 else 0)
  }

  /** The tally of what happened counts the steps themselves: each signature and each failure once, in its own field. */
  lemma {:induction false} EventsAreCounted(steps: seq<Step>, kid: Kid)
    ensures var t := Get(Run(steps).happened, kid);
      t.signatures == Signs(steps, kid, false) && t.probes == Signs(steps, kid, true) && t.failures == Fails(steps, kid)
  {
    hide Settle, AddAll, Add, Get;
    if steps == [] {
      NothingHappened(kid);
    } else {
      var front, last := steps[..|steps| - 1], steps[|steps| - 1];
      EventsAreCounted(front, kid);
      match last
      case Sign(k, probe) => AddAt(Run(front).happened, k, One(if probe then ProbeSignatures else Signatures), kid);
      case Fail(k, now) => AddAt(Run(front).happened, k, FailureTally(Audits(Run(front).last, k, now)), kid);
      case _ =>
    }
  }

  lemma NothingHappened(kid: Kid)
    ensures Get(Run([]).happened, kid) == ZERO
  {
  }

  /**
   * Conservation: with signing, probing and failing steps interleaved at the await, appends that may fail and flushes
   * that do not overlap, every event is either in a committed summary or in the pending tally, once; no tally is
   * negative, and one is kept exactly while something is pending.
   */
  lemma UsageIsConserved(steps: seq<Step>, kid: Kid)
    requires NonOverlapping(steps)
    ensures var s := Run(steps);
      Get(s.happened, kid) == Plus(Get(s.committed, kid), Get(s.usage, kid)) && AtLeast(Get(s.usage, kid), ZERO)
      && (kid in s.usage <==> Get(s.happened, kid) != Get(s.committed, kid))
      && Get(s.committed, kid).signatures + Get(s.usage, kid).signatures == Signs(steps, kid, false)
      && Get(s.committed, kid).probes + Get(s.usage, kid).probes == Signs(steps, kid, true)
      && Get(s.committed, kid).failures + Get(s.usage, kid).failures == Fails(steps, kid)
  {
    hide Run, NonOverlapping, Get;
    RunInv(steps);
    EventsAreCounted(steps, kid);
    ConservedAt(Run(steps), kid);
  }

  /** A flush whose append fails has changed nothing. */
  lemma FailedFlushUndone(s: State, f: Flush)
    requires f !in s.open
    ensures Apply(Apply(s, BeginFlush(f)), AppendFails(f)) == s
  {
    hide Settle, AddAll;
    assert s.open - {f} == s.open && s.open[f := s.usage] - {f} == s.open;
  }

  /** A flush that commits undisturbed leaves no tally, and the summaries hold just what the tallies did. */
  lemma FlushReportsAll(s: State, f: Flush, kid: Kid)
    requires f !in s.open
    ensures var s' := Apply(Apply(s, BeginFlush(f)), AppendCommits(f));
      s'.usage == map[] && Get(s'.committed, kid) == Plus(Get(s.committed, kid), Get(s.usage, kid))
  {
    hide Apply, Plus;
    BeginOpens(s, f);
    NothingOpen(s, f);
    if s.usage == map[] {
      PlusIsSame(Get(s.committed, kid), ZERO);
    } else {
      CommitReports(Apply(s, BeginFlush(f)), f, kid);
    }
  }

  lemma BeginOpens(s: State, f: Flush)
    requires f !in s.open
    ensures Apply(s, BeginFlush(f)) == if s.usage == map[] then s else s.(open := s.open[f := s.usage])
  {
    hide Settle, AddAll;
  }

  lemma NothingOpen(s: State, f: Flush)
    requires f !in s.open
    ensures Apply(s, AppendCommits(f)) == s
  {
  }

  lemma CommitReports(s: State, f: Flush, kid: Kid)
    requires f in s.open && s.open[f] == s.usage
    ensures var s' := Apply(s, AppendCommits(f));
      s'.usage == map[] && Get(s'.committed, kid) == Plus(Get(s.committed, kid), Get(s.usage, kid))
  {
    SettleAll(s.usage);
    AddedAt(s.committed, s.usage, kid);
    hide Settle, AddAll, Get, Plus;
  }

  /** Overlapping flushes report the same signature twice. */
  lemma OverlappingFlushesDoubleReport()
    ensures var s1 := Apply(START, Sign("k", false));
      var s3 := Apply(Apply(s1, BeginFlush(0)), BeginFlush(1));
      var s5 := Apply(Apply(s3, AppendCommits(0)), AppendCommits(1));
      Get(s5.happened, "k").signatures == 1 && Get(s5.committed, "k").signatures == 2
  {
    var one: Book := map["k" := Tally(1, 0, 0, 0)];
    var s1 := Apply(START, Sign("k", false));
    assert s1.usage == one && s1.happened == one && s1.committed == map[];
    var s3 := Apply(Apply(s1, BeginFlush(0)), BeginFlush(1));
    assert s3 == s1.(open := map[0 := one, 1 := one]);
    SettleAll(one);
    hide Settle, AddAll;
    var s4 := Apply(s3, AppendCommits(0));
    var s5 := Apply(s4, AppendCommits(1));
    assert s4.open[1] == one;
    assert s5.committed == AddAll(AddAll(map[], one), one) && s5.happened == one;
    AddedAt(map[], one, "k");
    AddedAt(AddAll(map[], one), one, "k");
  }

  lemma SettleAll(b: Book)
    ensures Settle(b, b) == map[]
  {
  }

  // ----------------------------------------------------------------- failures

  /** Rows attempted for one kid are a full interval apart, and the throttle remembers the last. */
  predicate Spaced(ts: seq<int>) { forall i :: 0 < i < |ts| ==> ts[i] - ts[i - 1] >= FAILURE_AUDIT_INTERVAL_MS }

  predicate FailuresOk(s: State, kid: Kid) {
    var rows, t := Times(s.audited, kid), Get(s.happened, kid);
    && t.failures == |rows| + t.suppressed && Spaced(rows)
    && (if rows == [] then kid !in s.last else kid in s.last && s.last[kid] == rows[|rows| - 1])
  }

  ghost predicate FailureInv(s: State) { forall kid :: FailuresOk(s, kid) }

  /** A signature adds no failure; a failure adds one, and either a row or a suppressed row. */
  lemma FailureCount(t: Tally, probe: bool, audits: bool)
    ensures var u := Plus(t, One(if probe then ProbeSignatures else Signatures));
      u.failures == t.failures && u.suppressed == t.suppressed
    ensures var u := Plus(t, FailureTally(audits));
      u.failures == t.failures + 1 && u.suppressed == t.suppressed + (if audits then 0 else 1)
  {
  }

  lemma FailureStep(s: State, step: Step)
    requires FailureInv(s)
    ensures FailureInv(Apply(s, step))
  {
    hide Settle, AddAll, Add, Get, Plus, One, FailureTally, Spaced;
    forall kid ensures FailuresOk(Apply(s, step), kid) {
      assert FailuresOk(s, kid);
      match step
      case Sign(k, probe) =>
        AddAt(s.happened, k, One(if probe then ProbeSignatures else Signatures), kid);
        FailureCount(Get(s.happened, kid), probe, false);
      case Fail(k, now) =>
        var audits := Audits(s.last, k, now);
        AddAt(s.happened, k, FailureTally(audits), kid);
        FailureCount(Get(s.happened, kid), false, audits);
        if audits && kid == k { SpacedMore(Times(s.audited, kid), now); }
      case _ =>
    }
  }

  lemma SpacedMore(ts: seq<int>, now: int)
    requires Spaced(ts) && (ts != [] ==> now - ts[|ts| - 1] >= FAILURE_AUDIT_INTERVAL_MS)
    ensures Spaced(ts + [now])
  {
  }

  /**
   * Over every run, overlapping flushes or not: failures are attempted rows plus suppressed ones, and rows are
   * throttled.
   */
  lemma {:induction false} FailuresAreAccounted(steps: seq<Step>)
    ensures FailureInv(Run(steps))
  {
    if steps != [] {
      FailuresAreAccounted(steps[..|steps| - 1]);
      hide FailureInv, Apply;
      FailureStep(Run(steps[..|steps| - 1]), steps[|steps| - 1]);
    }
  }

  /**
   * A failure gets its row exactly if a full interval has passed since the kid's last row; the first one, if a full
   * interval has passed since the epoch.
   */
  lemma FailureRowIff(steps: seq<Step>, kid: Kid, now: int)
    ensures var rows := Times(Run(steps).audited, kid);
      Times(Run(steps + [Fail(kid, now)]).audited, kid)
         == if (rows == [] && now >= 60_000) || (rows != [] && now - rows[|rows| - 1] >= 60_000)
            then rows + [now] else rows
  {
    FailuresAreAccounted(steps);
    assert (steps + [Fail(kid, now)])[..|steps|] == steps;
    assert FailuresOk(Run(steps), kid);
  }
}
