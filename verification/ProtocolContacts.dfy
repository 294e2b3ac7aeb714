/**
 * Where the times on a binding row come from: SDID's answers and the activation, as entries of the same run. The
 * cadence test of an approval or a login then rests on what SDID said, not on what a row says.
 */
module ProtocolContacts {
  import opened Common
  import opened Challenge
  import opened Protocol
  import opened ProtocolInvariant
  import opened ProtocolPreserved
  import opened ProtocolTheorems
  import Frames = ProtocolFrames
  import Times = ProtocolTimes

  /** Entry `i` writes that SDID, asked at `when`, found the citizen valid. */
  predicate ContactAt(log: seq<Event>, i: int, citizen: Id, when: nat) {
    && 0 <= i < |log|
    && match log[i]
       case Swept(c, at) => c == citizen && at == when
       case Fresh(_, _, bind, contact) =>
         contact == Answered(when) && bind < |log| && log[bind].BindRead? && log[bind].found.fixed.citizen == citizen
       case _ => false
  }

  /** Entry `i` activated the binding at `when`, the end of an enrolment that SDID matched. */
  predicate ActivatedAt(log: seq<Event>, i: int, binding: Id, when: nat) {
    && 0 <= i < |log| && log[i].Finished? && log[i].req.purpose.Activation?
    && log[i].req.binding == binding && log[i].when == when
  }

  /** The times on a row stand in the first `n` entries; an active row has been activated. */
  ghost predicate RowTrue(log: seq<Event>, n: int, id: Id, b: Binding) {
    && (b.lastReassertedAt.Some? ==> exists i :: i < n && ContactAt(log, i, b.fixed.citizen, b.lastReassertedAt.value))
    && (b.activatedAt.Some? ==> exists i :: i < n && ActivatedAt(log, i, id, b.activatedAt.value))
    && (b.status.Active? ==> b.activatedAt.Some?)
  }

  ghost predicate Contacts(s: State) {
    && (forall id | id in s.bindings :: RowTrue(s.log, |s.log|, id, s.bindings[id]))
    && (forall i | 0 <= i < |s.log| && s.log[i].BindRead? :: RowTrue(s.log, i, s.log[i].req.binding, s.log[i].found))
  }

  lemma RowLater(log: seq<Event>, log': seq<Event>, n: int, m: int, id: Id, b: Binding)
    requires log <= log' && n <= m && RowTrue(log, n, id, b)
    ensures RowTrue(log', m, id, b)
  {
    if b.lastReassertedAt.Some? {
      var i :| i < n && ContactAt(log, i, b.fixed.citizen, b.lastReassertedAt.value);
      assert ContactAt(log', i, b.fixed.citizen, b.lastReassertedAt.value);
    }
    if b.activatedAt.Some? {
      var i :| i < n && ActivatedAt(log, i, id, b.activatedAt.value);
      assert ActivatedAt(log', i, id, b.activatedAt.value);
    }
  }

  /** The row kept its times, and did not become active. */
  predicate SameTimes(b: Binding, b': Binding) {
    && b'.fixed == b.fixed && b'.lastReassertedAt == b.lastReassertedAt && b'.activatedAt == b.activatedAt
    && (b'.status == b.status || !b'.status.Active?)
  }

  /** What a step must say about the rows and reads it wrote. */
  ghost predicate Truthful(s: State, s': State) {
    && s.log <= s'.log
    && (forall id | id in s'.bindings ::
          (id in s.bindings && SameTimes(s.bindings[id], s'.bindings[id]))
              || RowTrue(s'.log, |s'.log|, id, s'.bindings[id]))
    && (forall i | |s.log| <= i < |s'.log| && s'.log[i].BindRead? ::
        RowTrue(s'.log, i, s'.log[i].req.binding, s'.log[i].found))
  }

  lemma ContactsKept(s: State, s': State)
    requires Contacts(s) && Truthful(s, s')
    ensures Contacts(s')
  {
    hide RowTrue;
    forall id | id in s'.bindings ensures RowTrue(s'.log, |s'.log|, id, s'.bindings[id]) {
      if id in s.bindings && SameTimes(s.bindings[id], s'.bindings[id]) {
        RowLater(s.log, s'.log, |s.log|, |s'.log|, id, s.bindings[id]);
        TimesDecide(s'.log, |s'.log|, id, s.bindings[id], s'.bindings[id]);
      }
    }
    forall i | 0 <= i < |s'.log| && s'.log[i].BindRead?
      ensures RowTrue(s'.log, i, s'.log[i].req.binding, s'.log[i].found)
    {
      if i < |s.log| { RowLater(s.log, s'.log, i, i, s.log[i].req.binding, s.log[i].found); }
    }
  }

  lemma TimesDecide(log: seq<Event>, n: int, id: Id, b: Binding, b': Binding)
    requires SameTimes(b, b') && RowTrue(log, n, id, b)
    ensures RowTrue(log, n, id, b')
  {
  }

  // ------------------------------------------------------------------- steps

  predicate SameTable(s: State, s1: State) { s1.bindings == s.bindings && s1.log == s.log }

  /** The ways a step ends that leave the bindings alone. */
  lemma Endings(s: State, t: Thread)
    ensures forall s1 | SameTable(s, s1) :: Truthful(s, s1) && Truthful(s, Stop(s1, t))
    ensures forall s1, pc | SameTable(s, s1) :: Truthful(s, Goto(s1, t, pc))
    ensures forall s1, e: Event | SameTable(s, s1) && !e.BindRead? :: Truthful(s, Note(s1, e))
    ensures forall s1, e: Event, next: Option<Pc> | SameTable(s, s1) && !e.BindRead? ::
        Truthful(s, Record(s1, t, e, next))
  {
    hide RowTrue;
  }

  lemma EndpointTruthful(w: World, s: State, step: EndpointStep)
    ensures Truthful(s, ApplyEndpoint(w, s, step))
  {
    hide Truthful, Stop, Goto, Note, Record, GrantOf;
    Endings(s, step.t);
  }

  /** Rows that lost their active status, or appeared waiting, need no contact. */
  lemma RowsTruthful(s: State, s1: State)
    requires s1.log == s.log
    requires forall id | id in s1.bindings ::
               (id in s.bindings && SameTimes(s.bindings[id], s1.bindings[id]))
               || (s1.bindings[id].lastReassertedAt.None? && s1.bindings[id].activatedAt.None?
                   && s1.bindings[id].status.Waiting?)
    ensures Truthful(s, s1) && (forall t, pc :: Truthful(s, Goto(s1, t, pc))) && (forall t :: Truthful(s, Stop(s1, t)))
  {
    forall id | id in s1.bindings && !(id in s.bindings && SameTimes(s.bindings[id], s1.bindings[id]))
      ensures RowTrue(s1.log, |s1.log|, id, s1.bindings[id])
    {
    }
    hide RowTrue;
  }

  /** Touched rows name the contact that the entry just written records. */
  lemma TouchTruthful(s: State, s': State, citizen: Id, when: nat)
    requires Contacts(s) && s'.bindings == Touch(s.bindings, citizen, when) && s.log <= s'.log
    requires |s'.log| == |s.log| + 1
    requires ContactAt(s'.log, |s.log|, citizen, when)
    ensures Truthful(s, s')
  {
    hide RowTrue, ContactAt;
    forall id | id in s'.bindings && !SameTimes(s.bindings[id], s'.bindings[id])
      ensures RowTrue(s'.log, |s'.log|, id, s'.bindings[id])
    {
      RowLater(s.log, s'.log, |s.log|, |s'.log|, id, s.bindings[id]);
      TouchedRow(s'.log, |s.log|, id, s.bindings[id], when);
    }
    assert !s'.log[|s.log|].BindRead? by { NoBindRead(s'.log, |s.log|, citizen, when); }
  }

  lemma NoBindRead(log: seq<Event>, i: int, citizen: Id, when: nat)
    requires ContactAt(log, i, citizen, when)
    ensures !log[i].BindRead?
  {
  }

  lemma TouchedRow(log: seq<Event>, i: nat, id: Id, b: Binding, when: nat)
    requires RowTrue(log, i + 1, id, b) && ContactAt(log, i, b.fixed.citizen, when)
    ensures RowTrue(log, i + 1, id, b.(lastReassertedAt := Some(when)))
  {
  }

  lemma SweepTruthful(s: State, citizen: Id, write: SweepWrite)
    requires Contacts(s)
    ensures Truthful(s, SweepWrites(s, citizen, write))
  {
    hide Truthful, Contacts, Touch;
    var s' := SweepWrites(s, citizen, write);
    match write
    case Refresh(when) =>
      if when > s.clock {
        Endings(s, 0);
      } else {
        assert ContactAt(s'.log, |s.log|, citizen, when);
        TouchTruthful(s, s', citizen, when);
      }
    case Suspend => Endings(s, 0);
    case RevokeBindings => RowsTruthful(s, s');
  }

  lemma EnrolTruthful(s: State, t: Thread, id: Id, fixed: BindingKey)
    ensures Truthful(s, Enrol(s, t, id, fixed))
  {
    hide Truthful, Goto;
    Endings(s, t);
    if id !in s.used && id !in s.bindings && t !in s.threads {
      RowsTruthful(s,
          s.(bindings := s.bindings[id := Binding(fixed, Waiting, s.clock, None, None)], used := s.used + {id}));
    }
  }

  lemma RevokeTruthful(s: State, id: Id)
    ensures Truthful(s, RevokeDevice(s, id))
  {
    hide Truthful;
    RowsTruthful(s, RevokeDevice(s, id));
  }

  lemma MoveTruthful(w: World, s: State, step: RequestStep)
    requires Times.MovesThread(step)
    ensures Truthful(s, ApplyRequest(w, s, step))
  {
    hide Truthful, Stop, Goto, Record, Guard, Issue;
    Endings(s, Frames.RequestThread(step));
    if step.IssueStep? { IssueTruthful(s, step.t, step.id, step.nonce); }
  }

  lemma IssueTruthful(s: State, t: Thread, challenge: Id, nonce: string)
    ensures Truthful(s, Issue(s, t, challenge, nonce))
  {
    hide Truthful, Record, StoredPurpose;
    Endings(s, t);
  }

  lemma RequestTruthful(w: World, s: State, step: RequestStep)
    requires Contacts(s)
    ensures Truthful(s, ApplyRequest(w, s, step))
  {
    hide Truthful, Contacts, Note, Enrol, RevokeDevice, SweepWrites, BuildChallengePayload, Create, PutStash,
        ListPending,
      StartLoginChallenge, Issue;
    Endings(s, 0);
    match step
    case EnrolStep(t, id, fixed) => EnrolTruthful(s, t, id, fixed);
    case RevokeStep(id) => RevokeTruthful(s, id);
    case SweepStep(citizen, write) => SweepTruthful(s, citizen, write);
    case _ => if Times.MovesThread(step) { MoveTruthful(w, s, step); }
  }

  lemma ReadBindingTruthful(s: State, t: Thread)
    requires Contacts(s)
    ensures Truthful(s, HandlerReadsBinding(s, t))
  {
    hide RowTrue, AlMeets;
    if t in s.threads && s.threads[t].Handling? && s.threads[t].req.binding in s.bindings {
      var id := s.threads[t].req.binding;
      RowLater(s.log, HandlerReadsBinding(s, t).log, |s.log|, |s.log|, id, s.bindings[id]);
    }
  }

  lemma SdidWriteTruthful(s: State, t: Thread)
    requires Contacts(s)
    ensures Truthful(s, ReassertWrites(s, t))
  {
    hide Truthful, Contacts, Touch;
    Endings(s, t);
    if t in s.threads && s.threads[t].Handling? && s.threads[t].stage.WriteSdid? && s.threads[t].stage.valid
       && IsBindRead(s, s.threads[t].bind)
    {
      var pc, s' := s.threads[t], ReassertWrites(s, t);
      var citizen := s.log[pc.bind].found.fixed.citizen;
      assert s'.log[pc.bind] == s.log[pc.bind];
      assert ContactAt(s'.log, |s.log|, citizen, pc.stage.now);
      TouchTruthful(s, s', citizen, pc.stage.now);
    }
  }

  lemma SdidRevokeTruthful(s: State, t: Thread)
    ensures Truthful(s, ReassertRevokes(s, t))
  {
    hide Truthful, Stop;
    Endings(s, t);
    if t in s.threads && s.threads[t].Handling? && s.threads[t].stage == RevokeAll && IsBindRead(s, s.threads[t].bind) {
      RowsTruthful(s, s.(bindings := RevokeActive(s.bindings, s.log[s.threads[t].bind].found.fixed.citizen)));
    }
  }

  lemma ActivateTruthful(s: State, t: Thread, pc: Pc)
    requires Contacts(s) && pc.Handling? && pc.bind >= 0 && pc.req.purpose.Activation?
    ensures Truthful(s, Activate(s, t, pc))
  {
    hide RowTrue, ActivatedAt;
    var id := pc.req.binding;
    if id in s.bindings {
      var s' := Activate(s, t, pc);
      var e := Finished(pc.req, pc.at, pc.bind, s.clock);
      assert s'.log == s.log + [e];
      RowLater(s.log, s'.log, |s.log|, |s'.log|, id, s.bindings[id]);
      LastActivates(s.log, e);
      ActivatedRow(s'.log, |s.log|, id, s.bindings[id], s.clock);
    }
  }

  lemma LastActivates(log: seq<Event>, e: Event)
    requires e.Finished? && e.req.purpose.Activation?
    ensures ActivatedAt(log + [e], |log|, e.req.binding, e.when)
  {
  }

  lemma ActivatedRow(log: seq<Event>, i: nat, id: Id, b: Binding, when: nat)
    requires RowTrue(log, i + 1, id, b) && ActivatedAt(log, i, id, when)
    ensures RowTrue(log, i + 1, id, b.(status := Active, activatedAt := Some(when)))
  {
  }

  lemma FinishTruthful(s: State, t: Thread)
    requires Contacts(s)
    ensures Truthful(s, HandlerFinishes(s, t))
  {
    hide Truthful, Contacts, Stop, Record, Activate;
    Endings(s, t);
    if t in s.threads && s.threads[t].Handling? && IsBindRead(s, s.threads[t].bind)
        && s.threads[t].req.purpose.Activation? {
      ActivateTruthful(s, t, s.threads[t]);
    }
  }

  /** The steps of a handler that write no binding and read none. */
  predicate LeavesBindings(step: HandlerStep) {
    !step.ReadBindingStep? && !step.SdidWriteStep? && !step.SdidRevokeStep? && !step.FinishStep?
  }

  lemma PlainTruthful(w: World, s: State, step: HandlerStep)
    requires LeavesBindings(step)
    ensures Truthful(s, ApplyHandler(w, s, step))
  {
    hide Truthful, Stop, Goto, Record, Guard, Forced, StoredPurpose, BuildChallengePayload, HandlerReadsBinding,
      ReassertWrites, ReassertRevokes, HandlerFinishes;
    Endings(s, step.t);
  }

  lemma HandlerTruthful(w: World, s: State, step: HandlerStep)
    requires Contacts(s)
    ensures Truthful(s, ApplyHandler(w, s, step))
  {
    hide Truthful, Contacts, HandlerReadsBinding, ReassertWrites, ReassertRevokes, HandlerFinishes, HandlerChecksDue,
      ReassertReadsCitizen, SdidAnswers, StartDecision, StartHandler, DecisionReadsTxn, HandlerTakes, HandlerVerifies;
    match step
    case ReadBindingStep(t) => ReadBindingTruthful(s, t);
    case SdidWriteStep(t) => SdidWriteTruthful(s, t);
    case SdidRevokeStep(t) => SdidRevokeTruthful(s, t);
    case FinishStep(t) => FinishTruthful(s, t);
    case _ => PlainTruthful(w, s, step);
  }

  lemma {:induction false} ExecContacts(w: World, steps: seq<Step>)
    ensures Contacts(Exec(w, steps))
  {
    hide Contacts, Truthful, ApplyRequest, ApplyHandler, ApplyEndpoint;
    if steps == [] {
      NothingYet();
    } else {
      var s, step := Exec(w, steps[..|steps| - 1]), steps[|steps| - 1];
      ExecContacts(w, steps[..|steps| - 1]);
      match step {
        case Around(st) => RequestTruthful(w, s, st);
        case Handle(st) => HandlerTruthful(w, s, st);
        case Endpoint(st) => EndpointTruthful(w, s, st);
      }
      ContactsKept(s, Apply(w, s, step));
    }
  }

  lemma NothingYet()
    ensures Contacts(Init())
  {
  }

  // ---------------------------------------------------------------- the theorem

  /**
   * An earlier entry is SDID's valid answer about this citizen, or this binding's activation, in the interval to `now`.
   */
  ghost predicate SdidBehind(w: World, log: seq<Event>, n: int, binding: Id, citizen: Id, now: nat) {
    exists j, when: nat ::
      j < n && when <= now && now - when < w.reverifyInterval && VouchesAt(log, j, binding, citizen, when)
  }

  predicate VouchesAt(log: seq<Event>, j: int, binding: Id, citizen: Id, when: nat) {
    ContactAt(log, j, citizen, when) || ActivatedAt(log, j, binding, when)
  }

  lemma RowVouches(w: World, log: seq<Event>, n: int, id: Id, b: Binding, now: nat)
    requires RowTrue(log, n, id, b) && b.status.Active?
    requires LastSdidContact(b) <= now && now - LastSdidContact(b) < w.reverifyInterval
    ensures SdidBehind(w, log, n, id, b.fixed.citizen, now)
  {
    if b.lastReassertedAt.Some? {
      var i :| i < n && ContactAt(log, i, b.fixed.citizen, b.lastReassertedAt.value);
      assert VouchesAt(log, i, id, b.fixed.citizen, b.lastReassertedAt.value);
    } else {
      var i :| i < n && ActivatedAt(log, i, id, b.activatedAt.value);
      assert VouchesAt(log, i, id, b.fixed.citizen, b.activatedAt.value);
    }
  }

  lemma CadenceIsPast(s: State, i: nat)
    requires Times.Past(s) && i < |s.log| && s.log[i].Fresh? && s.log[i].contact.Cadence?
    requires s.log[i].bind < i && s.log[s.log[i].bind].BindRead?
    ensures LastSdidContact(s.log[s.log[i].bind].found) <= s.log[i].contact.now
  {
    assert Times.CadencePast(s.log, i);
  }

  /**
   * Every applied approval and every minted session has SDID behind it in the run itself: its handler had SDID's valid
   * answer, or, in the interval up to the handler's clock reading, some earlier entry of any thread records a valid
   * answer about that citizen or the activation of that very binding.
   */
  lemma SdidIsBehindEveryAcceptance(w: World, steps: seq<Step>, done: nat)
    requires done < |Exec(w, steps).log| && Exec(w, steps).log[done].Finished?
    requires Exec(w, steps).log[done].req.purpose.Login? || Exec(w, steps).log[done].req.purpose.CibaApprove?
    ensures var log := Exec(w, steps).log;
      var ev, req := EvidenceOf(log, done), log[done].req;
      && Proved(log, ev, req) && Reverified(w, log, ev, req)
      && (log[ev.recent].contact.Cadence? ==>
            SdidBehind(w, log, ev.bind, req.binding, log[ev.bind].found.fixed.citizen, log[ev.recent].contact.now))
  {
    hide Inv, Exec, EvidenceOf, Agreed, Entitled, StepUpAnswered, RowTrue, SdidBehind, Times.Past;
    var s := Exec(w, steps);
    ExecInv(w, steps);
    ExecContacts(w, steps);
    Times.ExecPast(w, steps);
    FinishedEvidence(w, s, done);
    var ev := EvidenceOf(s.log, done);
    InvEntry(w, s, ev.bind);
    if s.log[ev.recent].contact.Cadence? {
      CadenceIsPast(s, ev.recent);
      RowVouches(w, s.log, ev.bind, s.log[done].req.binding, s.log[ev.bind].found, s.log[ev.recent].contact.now);
    }
  }
}
