/** The proactive re-verification sweep of apps/broker/src/trust/reverification.service.ts. */
module Reverify {
  import opened Common
  import opened Protocol

  /** The rows the sweep touches, and the citizens SDID can be asked about: their row is there and names a subject. */
  datatype Registry = Registry(bindings: map<Id, Binding>, suspended: set<Id>, subjects: set<Id>)

  datatype Answer = Valid | Invalid | Unreachable

  datatype Outcome = Reasserted | AccessDenied | Threw

  /**
   * When other handlers write during one citizen's turn: before its row is read, before the result is written, and
   * before the revocation.
   */
  datatype Moment = BeforeRead | BeforeWrite | BeforeRevoke

  /** SDID as the sweep meets it, the clock at each contact, and what other handlers do to the rows meanwhile. */
  datatype Outside =
    Outside(answer: Id -> Answer, clock: Id -> nat, interval: nat, others: (Id, Moment, Registry) -> Registry)

  predicate IsDue(b: Binding, now: nat, interval: nat) { now - LastSdidContact(b) >= interval }

  /** Refused without asking SDID. */
  predicate Refused(reg: Registry, citizen: Id) { citizen in reg.suspended || citizen !in reg.subjects }

  function OutcomeOf(w: Outside, reg: Registry, citizen: Id): Outcome {
    if Refused(reg, citizen) then AccessDenied
    else match w.answer(citizen) case Valid => Reasserted case Invalid => AccessDenied case Unreachable => Threw
  }

  /** The rows after a citizen's turn that found them as in `reg`. */
  function AfterReassert(w: Outside, reg: Registry, citizen: Id): Registry {
    if Refused(reg, citizen) then reg
    else
      var r := w.others(citizen, BeforeWrite, reg);
      match w.answer(citizen)
      case Valid => r.(bindings := Touch(r.bindings, citizen, w.clock(citizen)))
      case Invalid => Revoked(w.others(citizen, BeforeRevoke, r.(suspended := r.suspended + {citizen})), citizen)
      case Unreachable => r
  }

  function Revoked(reg: Registry, citizen: Id): Registry {
    reg.(bindings := RevokeActive(reg.bindings, citizen))
  }

  /** The rows that the next citizen's turn finds, after these citizens in turn. */
  function Turn(w: Outside, reg: Registry, citizens: seq<Id>, next: Id): Registry {
    w.others(next, BeforeRead, AfterAll(w, reg, citizens))
  }

  /** The rows after re-asserting these citizens in turn, up to the first that throws. */
  function AfterAll(w: Outside, reg: Registry, citizens: seq<Id>): Registry
    decreases |citizens|
  {
    if citizens == [] then reg
    else
      var front, last := citizens[..|citizens| - 1], citizens[|citizens| - 1];
      AfterReassert(w, w.others(last, BeforeRead, AfterAll(w, reg, front)), last)
  }

  /** Whom SDID is asked about, in order. */
  function AskedOf(w: Outside, reg: Registry, citizens: seq<Id>): (asked: seq<Id>)
    ensures forall c | c in asked :: c in citizens
  {
    if citizens == [] then []
    else
      var front, last := citizens[..|citizens| - 1], citizens[|citizens| - 1];
      AskedOf(w, reg, front) + (if Refused(Turn(w, reg, front, last), last) then [] else [last])
  }

  predicate NoRepeats(xs: seq<Id>) { forall i, j :: 0 <= i < j < |xs| ==> xs[i] != xs[j] }

  /** What `SELECT ... WHERE status = 'active'` returns. */
  ghost predicate ActiveRows(reg: Registry, rows: seq<Id>) {
    NoRepeats(rows) && forall id :: id in rows <==> id in reg.bindings && reg.bindings[id].status == Active
  }

  /** Some active binding of the citizen is past the cadence. */
  predicate CitizenDue(reg: Registry, citizen: Id, now: nat, interval: nat) {
    exists id | id in reg.bindings :: RowDue(reg, id, citizen, now, interval)
  }

  predicate RowDue(reg: Registry, id: Id, citizen: Id, now: nat, interval: nat) {
    && id in reg.bindings && reg.bindings[id].status == Active
    && reg.bindings[id].fixed.citizen == citizen && PastCadence(reg.bindings[id], now, interval)
  }

  /**
   * The interval has passed since SDID last vouched for the binding: since its last re-assertion, without one since its
   * activation, without either since its enrolment.
   */
  predicate PastCadence(b: Binding, now: nat, interval: nat) {
    && (b.lastReassertedAt.Some? ==> b.lastReassertedAt.value + interval <= now)
    && (b.lastReassertedAt.None? && b.activatedAt.Some? ==> b.activatedAt.value + interval <= now)
    && (b.lastReassertedAt.None? && b.activatedAt.None? ==> b.enrolledAt + interval <= now)
  }

  /** One of the first `n` rows is due. */
  predicate SeenDue(reg: Registry, rows: seq<Id>, n: int, citizen: Id, now: nat, interval: nat)
    requires n <= |rows|
  {
    exists i :: 0 <= i < n && RowDue(reg, rows[i], citizen, now, interval)
  }

  datatype Report = Report(scanned: nat, due: nat, reasserted: nat, revoked: nat)

  class Service {
    var registry: Registry
    const world: Outside
    ghost var contacts: seq<Id>   // whom SDID was asked about

    constructor (registry: Registry, world: Outside)
      ensures this.registry == registry && this.world == world && contacts == []
    {
      this.registry, this.world, contacts := registry, world, [];
    }

    /** What other handlers write while this one waits. */
    method Await(citizen: Id, moment: Moment)
      modifies this`registry
      ensures registry == world.others(citizen, moment, old(registry))
    {
      registry := world.others(citizen, moment, registry);
    }

    method ReassertNow(citizen: Id) returns (r: Outcome)
      modifies this`registry, this`contacts
      ensures var turn := world.others(citizen, BeforeRead, old(registry));
        && r == OutcomeOf(world, turn, citizen) && registry == AfterReassert(world, turn, citizen)
        && contacts == old(contacts) +
             (if citizen in turn.suspended || citizen !in turn.subjects then [] else [citizen])
    {
      Await(citizen, BeforeRead);
      if citizen in registry.suspended || citizen !in registry.subjects { return AccessDenied; }
      contacts := contacts + [citizen];
      Await(citizen, BeforeWrite);
      match world.answer(citizen) {
        case Valid =>
          registry := registry.(bindings := Touch(registry.bindings, citizen, world.clock(citizen)));
          return Reasserted;
        case Invalid =>
          registry := registry.(suspended := registry.suspended + {citizen});
          Await(citizen, BeforeRevoke);
          registry := registry.(bindings := RevokeActive(registry.bindings, citizen));
          return AccessDenied;
        case Unreachable => return Threw;
      }
    }

    /** The first loop: one entry per citizen with a due active binding. */
    method CollectDue(rows: seq<Id>, now: nat) returns (due: seq<Id>)
      requires ActiveRows(registry, rows)
      ensures NoRepeats(due) && forall c :: c in due <==> CitizenDue(registry, c, now, world.interval)
    {
      due := [];
      for n := 0 to |rows|
        invariant NoRepeats(due)
        invariant forall c :: c in due <==> SeenDue(registry, rows, n, c, now, world.interval)
      {
        assert rows[n] in rows;
        var b := registry.bindings[rows[n]];
        ghost var before := due;
        if IsDue(b, now, world.interval) && b.fixed.citizen !in due { due := due + [b.fixed.citizen]; }
        forall c ensures c in due <==> SeenDue(registry, rows, n + 1, c, now, world.interval) {
          DueExtends(registry, rows, n, c, now, world.interval);
          assert c in due <==> c in before || RowDue(registry, rows[n], c, now, world.interval);
        }
      }
      forall c ensures c in due <==> CitizenDue(registry, c, now, world.interval) {
        AllSeen(registry, rows, c, now, world.interval);
      }
    }

    /** The second loop: up to `most` of the due citizens in order, until one throws. */
    method HandleDue(due: seq<Id>, most: nat) returns (reasserted: nat, revoked: nat, handled: nat, threw: bool)
      requires most <= |due|
      modifies this`registry, this`contacts
      ensures handled <= most && |old(contacts)| <= |contacts| && contacts[..|old(contacts)|] == old(contacts)
      ensures Handled(world, old(registry), due, handled, registry, contacts[|old(contacts)|..], reasserted, threw)
      ensures !threw ==> handled == most && reasserted + revoked == most
    {
      ghost var start, before := registry, contacts;
      ghost var asked: seq<Id> := [];
      reasserted, revoked, handled := 0, 0, 0;
      NoneHandled(world, start, due);
      hide *;
      while handled < most
        invariant handled <= most && reasserted + revoked == handled && contacts == before + asked
        invariant Handled(world, start, due, handled, registry, asked, reasserted, false)
        decreases most - handled
      {
        ghost var found := registry;
        var outcome := ReassertNow(due[handled]);
        OneMore(world, start, due, handled, found, asked, reasserted);
        ghost var turn := world.others(due[handled], BeforeRead, found);
        asked := asked + if Refused(turn, due[handled]) then [] else [due[handled]];
        handled := handled + 1;
        match outcome {
          case Reasserted => reasserted := reasserted + 1;
          case AccessDenied => revoked := revoked + 1;
          case Threw => return reasserted, revoked, handled, true;
        }
      }
      threw := false;
    }

    /**
     * `sweep`: it handles `handled` of the due citizens, in order and once each, and asks SDID about those it does not
     * refuse. If nothing throws, that is as many as the limit allows, and the re-asserted and the revoked together are
     * that many; otherwise it stops at the first that throws.
     */
    method Sweep(rows: seq<Id>, now: nat, limit: nat) returns (r: Option<Report>, due: seq<Id>, handled: nat)
      requires ActiveRows(registry, rows)
      modifies this`registry, this`contacts
      ensures NoRepeats(due) && forall c :: c in due <==> CitizenDue(old(registry), c, now, world.interval)
      ensures handled <= Min(limit, |due|) && registry == AfterAll(world, old(registry), due[..handled])
      ensures var asked := AskedOf(world, old(registry), due[..handled]);
        contacts == old(contacts) + asked && NoRepeats(asked)
      ensures forall i :: 0 <= i < handled - 1 ==> OutcomeAt(world, old(registry), due, i) != Threw
      ensures r.None? <==> handled > 0 && OutcomeAt(world, old(registry), due, handled - 1) == Threw
      ensures r.Some? ==>
        && handled == Min(limit, |due|) && r.value.scanned == |rows| && r.value.due == |due|
        && r.value.reasserted + r.value.revoked == Min(limit, |due|)
        && r.value.reasserted == Count(world, old(registry), due, handled, Reasserted)
    {
      hide AfterAll, AskedOf, Count, OutcomeAt, CitizenDue, NoRepeats, ActiveRows;
      due := CollectDue(rows, now);
      var reasserted, revoked, n, threw := HandleDue(due, Min(limit, |due|));
      handled := n;
      assert contacts == old(contacts) + contacts[|old(contacts)|..];
      AskedOnce(world, old(registry), due, handled);
      r := if threw then None else Some(Report(|rows|, |due|, reasserted, revoked));
    }
  }

  /**
   * The loop after `n` due citizens: the rows, whom SDID was asked about, how many it re-asserted, and whether the last
   * one threw, none before having done so.
   */
  ghost predicate Handled(w: Outside, start: Registry, due: seq<Id>, n: nat, reg: Registry, asked: seq<Id>,
                          reasserted: nat, threw: bool)
  {
    && n <= |due| && reg == AfterAll(w, start, due[..n]) && asked == AskedOf(w, start, due[..n])
    && reasserted == Count(w, start, due, n, Reasserted)
    && (forall i :: 0 <= i < n - 1 ==> OutcomeAt(w, start, due, i) != Threw)
    && (threw <==> n > 0 && OutcomeAt(w, start, due, n - 1) == Threw)
  }

  lemma NoneHandled(w: Outside, start: Registry, due: seq<Id>)
    ensures Handled(w, start, due, 0, start, [], 0, false)
  {
    assert due[..0] == [];
  }

  /** One more due citizen handled. */
  lemma OneMore(w: Outside, start: Registry, due: seq<Id>, n: nat, reg: Registry, asked: seq<Id>, reasserted: nat)
    requires n < |due| && Handled(w, start, due, n, reg, asked, reasserted, false)
    ensures var turn := w.others(due[n], BeforeRead, reg);
      Handled(w, start, due, n + 1, AfterReassert(w, turn, due[n]),
          asked + (if Refused(turn, due[n]) then [] else [due[n]]),
              reasserted + (if OutcomeOf(w, turn, due[n]) == Reasserted then 1 else 0),
                  OutcomeOf(w, turn, due[n]) == Threw)
  {
    hide AfterReassert, OutcomeOf, Refused;
    assert due[..n + 1][..n] == due[..n] && due[..n + 1][n] == due[n];
    var turn := w.others(due[n], BeforeRead, reg);
    assert turn == Turn(w, start, due[..n], due[n]);
    assert OutcomeAt(w, start, due, n) == OutcomeOf(w, turn, due[n]);
  }

  lemma DueExtends(reg: Registry, rows: seq<Id>, n: nat, c: Id, now: nat, interval: nat)
    requires n < |rows|
    ensures SeenDue(reg, rows, n + 1, c, now, interval)
       <==> SeenDue(reg, rows, n, c, now, interval) || RowDue(reg, rows[n], c, now, interval)
  {
  }

  lemma AllSeen(reg: Registry, rows: seq<Id>, c: Id, now: nat, interval: nat)
    requires ActiveRows(reg, rows)
    ensures SeenDue(reg, rows, |rows|, c, now, interval) <==> CitizenDue(reg, c, now, interval)
  {
    if CitizenDue(reg, c, now, interval) {
      var id :| id in reg.bindings && RowDue(reg, id, c, now, interval);
      assert id in rows;
      var i :| 0 <= i < |rows| && rows[i] == id;
    }
  }

  /** SDID is asked about nobody twice. */
  lemma {:induction false} AskedOnce(w: Outside, reg: Registry, due: seq<Id>, n: nat)
    requires NoRepeats(due) && n <= |due|
    ensures NoRepeats(AskedOf(w, reg, due[..n]))
  {
    hide AfterAll, Refused;
    if n > 0 {
      assert due[..n][..n - 1] == due[..n - 1];
      AskedOnce(w, reg, due, n - 1);
      assert due[n - 1] !in due[..n - 1];
    }
  }

  /** How many of the first `n` due citizens had this outcome. */
  function Count(w: Outside, reg: Registry, due: seq<Id>, n: nat, o: Outcome): nat
    requires n <= |due|
  {
    if n == 0 then 0 else Count(w, reg, due, n - 1, o) + (if OutcomeAt(w, reg, due, n - 1) == o then 1 else 0)
  }

  /** What happened to the `i`-th due citizen. */
  function OutcomeAt(w: Outside, reg: Registry, due: seq<Id>, i: int): Outcome
    requires 0 <= i < |due|
  {
    OutcomeOf(w, Turn(w, reg, due[..i], due[i]), due[i])
  }

  // -------------------------------------------------- what the rows say afterwards

  /** The citizen's active bindings all carry the time of this contact. */
  predicate Refreshed(reg: Registry, citizen: Id, at: nat) {
    forall b | b in reg.bindings && reg.bindings[b].fixed.citizen == citizen && reg.bindings[b].status == Active ::
      LastSdidContact(reg.bindings[b]) == at
  }

  /** The citizen is suspended and has no active binding left. */
  predicate ShutOut(reg: Registry, citizen: Id) {
    && citizen in reg.suspended
    && forall b | b in reg.bindings && reg.bindings[b].fixed.citizen == citizen :: reg.bindings[b].status != Active
  }

  /** Other handlers never lift a suspension. */
  ghost predicate NeverLifts(w: Outside) { forall c, m, r: Registry :: r.suspended <= w.others(c, m, r).suspended }

  /**
   * A contact settles its citizen, whatever other handlers write meanwhile: after a valid answer every active binding
   * carries its time, after an invalid one no binding is active, and the suspension stands unless someone lifts it.
   * Where SDID gave no answer, or the citizen was suspended or unknown before, the turn wrote nothing.
   */
  lemma ReassertSettles(w: Outside, reg: Registry, citizen: Id)
    ensures var end, outcome := AfterReassert(w, reg, citizen), OutcomeOf(w, reg, citizen);
      if citizen in reg.suspended || citizen !in reg.subjects then outcome == AccessDenied && end == reg
      else
        match w.answer(citizen)
        case Valid => outcome == Reasserted && Refreshed(end, citizen, w.clock(citizen))
        case Invalid => outcome == AccessDenied && (NeverLifts(w) ==> ShutOut(end, citizen))
        case Unreachable => outcome == Threw && end == w.others(citizen, BeforeWrite, reg)
  {
    if w.answer(citizen) == Invalid && NeverLifts(w) {
      var r := w.others(citizen, BeforeWrite, reg);
      var r1 := r.(suspended := r.suspended + {citizen});
      assert r1.suspended <= w.others(citizen, BeforeRevoke, r1).suspended;
    }
  }

  /** From `b` to `b'` at most the time of the last re-assertion changed, or an active binding was revoked. */
  predicate AtMostSettled(b: Binding, b': Binding) {
    || b' == b.(lastReassertedAt := b'.lastReassertedAt)
    || (b.status == Active && b' == b.(status := BindingStatus.Revoked))
  }

  /** The two updates of a turn. */
  predicate OnlySettles(reg: Registry, reg': Registry, citizen: Id) {
    && reg'.bindings.Keys == reg.bindings.Keys
    && forall b | b in reg.bindings ::
         && AtMostSettled(reg.bindings[b], reg'.bindings[b])
         && (reg.bindings[b].fixed.citizen != citizen || reg.bindings[b].status != Active ==>
               reg'.bindings[b] == reg.bindings[b])
  }

  lemma UpdatesSettle(reg: Registry, citizen: Id, at: nat)
    ensures OnlySettles(reg, reg.(bindings := Touch(reg.bindings, citizen, at)), citizen)
    ensures OnlySettles(reg, Revoked(reg, citizen), citizen)
  {
  }

  /** Nothing of this citizen's changed, and no binding of theirs appeared. */
  predicate SameFor(reg: Registry, reg': Registry, citizen: Id) {
    && (citizen in reg.suspended <==> citizen in reg'.suspended)
    && (citizen in reg.subjects <==> citizen in reg'.subjects)
    && forall b | b in reg'.bindings && reg'.bindings[b].fixed.citizen == citizen ::
         b in reg.bindings && reg'.bindings[b] == reg.bindings[b]
  }

  /** Another citizen's writes. */
  lemma WritesTouchOnly(reg: Registry, other: Id, citizen: Id, at: nat)
    requires other != citizen
    ensures SameFor(reg, reg.(bindings := Touch(reg.bindings, other, at)), citizen)
    ensures SameFor(reg, reg.(suspended := reg.suspended + {other}), citizen)
    ensures SameFor(reg, Revoked(reg, other), citizen)
  {
  }

  /** Other handlers leave this citizen's rows alone. */
  ghost predicate LeavesAlone(w: Outside, citizen: Id) { forall c, m, r :: SameFor(r, w.others(c, m, r), citizen) }

  lemma SameForLater(a: Registry, b: Registry, c: Registry, citizen: Id)
    requires SameFor(a, b, citizen) && SameFor(b, c, citizen)
    ensures SameFor(a, c, citizen)
  {
  }

  lemma OtherTurn(w: Outside, reg: Registry, other: Id, citizen: Id)
    requires other != citizen && LeavesAlone(w, citizen)
    ensures SameFor(reg, AfterReassert(w, w.others(other, BeforeRead, reg), other), citizen)
  {
    hide SameFor, Touch, RevokeActive, Revoked, Refused;
    var turn := w.others(other, BeforeRead, reg);
    assert SameFor(reg, turn, citizen);
    var r := w.others(other, BeforeWrite, turn);
    assert SameFor(turn, r, citizen);
    SameForLater(reg, turn, r, citizen);
    WritesTouchOnly(r, other, citizen, w.clock(other));
    SameForLater(reg, r, r.(bindings := Touch(r.bindings, other, w.clock(other))), citizen);
    var r1 := r.(suspended := r.suspended + {other});
    SameForLater(reg, r, r1, citizen);
    var r2 := w.others(other, BeforeRevoke, r1);
    assert SameFor(r1, r2, citizen);
    SameForLater(reg, r1, r2, citizen);
    WritesTouchOnly(r2, other, citizen, 0);
    SameForLater(reg, r2, Revoked(r2, other), citizen);
  }

  /** How the rows at `end` show what became of a citizen whose turn found them as at `turn`. */
  predicate Shows(w: Outside, turn: Registry, end: Registry, citizen: Id) {
    if citizen in turn.suspended || citizen !in turn.subjects then SameFor(turn, end, citizen)
    else
      match w.answer(citizen)
      case Valid => Refreshed(end, citizen, w.clock(citizen))
      case Invalid => ShutOut(end, citizen)
      case Unreachable => SameFor(turn, end, citizen)
  }

  lemma ShowsAtOnce(w: Outside, turn: Registry, citizen: Id)
    requires LeavesAlone(w, citizen)
    ensures Shows(w, turn, AfterReassert(w, turn, citizen), citizen)
  {
    if citizen !in turn.suspended && citizen in turn.subjects {
      ReassertSettles(w, turn, citizen);
      var r := w.others(citizen, BeforeWrite, turn);
      assert SameFor(turn, r, citizen);
      if w.answer(citizen) == Invalid {
        var r1 := r.(suspended := r.suspended + {citizen});
        assert SameFor(r1, w.others(citizen, BeforeRevoke, r1), citizen);
      }
    }
  }

  lemma ShowsLater(w: Outside, turn: Registry, reg: Registry, reg': Registry, citizen: Id)
    requires Shows(w, turn, reg, citizen) && SameFor(reg, reg', citizen)
    ensures Shows(w, turn, reg', citizen)
  {
  }

  /**
   * After a sweep, every citizen it handled and whose rows the other handlers left alone is settled: refreshed if SDID
   * said valid, suspended without active bindings if it said invalid, and as it was if SDID gave no answer or was not
   * asked.
   */
  lemma {:induction false} SweepSettles(w: Outside, reg: Registry, due: seq<Id>, n: nat, i: nat)
    requires NoRepeats(due) && i < n <= |due| && LeavesAlone(w, due[i])
    ensures Shows(w, Turn(w, reg, due[..i], due[i]), AfterAll(w, reg, due[..n]), due[i])
    decreases n
  {
    hide AfterReassert, OutcomeOf, Shows, LeavesAlone, SameFor;
    assert due[..n][..n - 1] == due[..n - 1];
    var before := AfterAll(w, reg, due[..n - 1]);
    if i == n - 1 {
      ShowsAtOnce(w, Turn(w, reg, due[..i], due[i]), due[i]);
    } else {
      SweepSettles(w, reg, due, n - 1, i);
      OtherTurn(w, before, due[n - 1], due[i]);
      ShowsLater(w, Turn(w, reg, due[..i], due[i]), before, AfterAll(w, reg, due[..n]), due[i]);
    }
  }
}
