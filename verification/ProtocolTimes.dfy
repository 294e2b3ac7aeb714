/** No row and no handler names a time that has not come: what a cadence test compares lies before its clock reading. */
module ProtocolTimes {
  import opened Common
  import opened Challenge
  import opened Protocol
  import Frames = ProtocolFrames

  predicate RowPast(b: Binding, clock: nat) {
    && (b.lastReassertedAt.Some? ==> b.lastReassertedAt.value <= clock)
    && (b.activatedAt.Some? ==> b.activatedAt.value <= clock) && b.enrolledAt <= clock
  }

  /** A handler that talks to SDID looked at the clock before. */
  predicate PcPast(pc: Pc, clock: nat) {
    pc.Handling? ==>
      match pc.stage
      case ReadCitizen(now) => now <= clock
      case AskSdid(now) => now <= clock
      case WriteSdid(now, _) => now <= clock
      case _ => true
  }

  /** The row that a handler found young enough names no later time than the handler's clock. */
  predicate CadencePast(log: seq<Event>, i: int)
    requires 0 <= i < |log|
  {
    log[i].Fresh? && log[i].contact.Cadence? && log[i].bind < i && log[log[i].bind].BindRead? ==>
      LastSdidContact(log[log[i].bind].found) <= log[i].contact.now
  }

  ghost predicate Past(s: State) {
    && (forall id | id in s.bindings :: RowPast(s.bindings[id], s.clock))
    && (forall i | 0 <= i < |s.log| && s.log[i].BindRead? :: RowPast(s.log[i].found, s.clock))
    && (forall t | t in s.threads :: PcPast(s.threads[t], s.clock))
    && (forall i | 0 <= i < |s.log| :: CadencePast(s.log, i))
  }

  predicate SameRow(b: Binding, b': Binding) {
    b'.lastReassertedAt == b.lastReassertedAt && b'.activatedAt == b.activatedAt && b'.enrolledAt == b.enrolledAt
  }

  ghost predicate RowsTimely(s: State, s': State) {
    && s.clock <= s'.clock
    && forall id | id in s'.bindings ::
         (id in s.bindings && SameRow(s.bindings[id], s'.bindings[id])) || RowPast(s'.bindings[id], s'.clock)
  }

  predicate EntryTimely(s': State, i: int)
    requires 0 <= i < |s'.log|
  {
    CadencePast(s'.log, i) && (s'.log[i].BindRead? ==> RowPast(s'.log[i].found, s'.clock))
  }

  ghost predicate EntriesTimely(s: State, s': State) {
    s.log <= s'.log && forall i | |s.log| <= i < |s'.log| :: EntryTimely(s', i)
  }

  ghost predicate ThreadsTimely(s: State, s': State) {
    forall t | t in s'.threads ::
      (t in s.threads && s'.threads[t] == s.threads[t]) || PcPast(s'.threads[t], s'.clock)
  }

  /** What a step must say about the times it wrote. */
  ghost predicate Timely(s: State, s': State) { RowsTimely(s, s') && EntriesTimely(s, s') && ThreadsTimely(s, s') }

  lemma PastKept(s: State, s': State)
    requires Past(s) && Timely(s, s')
    ensures Past(s')
  {
    hide RowPast, CadencePast, PcPast, SameRow, Past;
    forall id | id in s'.bindings ensures RowPast(s'.bindings[id], s'.clock) {
      if id in s.bindings { PastRow(s, id, s'.bindings[id], s'.clock); }
    }
    forall t | t in s'.threads ensures PcPast(s'.threads[t], s'.clock) {
      if t in s.threads { PastPc(s, t, s'.clock); }
    }
    forall i | 0 <= i < |s'.log|
      ensures CadencePast(s'.log, i) && (s'.log[i].BindRead? ==> RowPast(s'.log[i].found, s'.clock))
    {
      if i < |s.log| { PastEntry(s, s', i); } else { assert EntryTimely(s', i); }
    }
    PastOf(s');
  }

  lemma PastOf(s: State)
    requires forall id | id in s.bindings :: RowPast(s.bindings[id], s.clock)
    requires forall t | t in s.threads :: PcPast(s.threads[t], s.clock)
    requires forall i | 0 <= i < |s.log| ::
               CadencePast(s.log, i) && (s.log[i].BindRead? ==> RowPast(s.log[i].found, s.clock))
    ensures Past(s)
  {
    hide RowPast, CadencePast, PcPast;
  }

  lemma PastRow(s: State, id: Id, b: Binding, clock: nat)
    requires Past(s) && id in s.bindings && s.clock <= clock
    ensures SameRow(s.bindings[id], b) ==> RowPast(b, clock)
  {
    hide CadencePast, PcPast;
  }

  lemma PastPc(s: State, t: Thread, clock: nat)
    requires Past(s) && t in s.threads && s.clock <= clock
    ensures PcPast(s.threads[t], clock)
  {
    hide CadencePast, RowPast;
  }

  lemma PastEntry(s: State, s': State, i: nat)
    requires Past(s) && i < |s.log| && s.log <= s'.log && s.clock <= s'.clock
    ensures CadencePast(s'.log, i) && (s'.log[i].BindRead? ==> RowPast(s'.log[i].found, s'.clock))
  {
    hide PcPast;
    assert s'.log[i] == s.log[i] && CadencePast(s.log, i);
    assert s.log[i].BindRead? ==> RowPast(s.log[i].found, s.clock);
  }

  /** `s1` differs from `s` in no binding, thread or entry. */
  predicate SameTable(s: State, s1: State) {
    s1.bindings == s.bindings && s1.log == s.log && s1.threads == s.threads && s.clock <= s1.clock
  }

  predicate Timeless(e: Event) { !e.BindRead? && (e.Fresh? ==> e.contact.Answered?) }

  lemma SameTimely(s: State, s1: State)
    requires SameTable(s, s1)
    ensures Timely(s, s1)
  {
    hide RowPast, EntryTimely, PcPast;
  }

  lemma StopTimely(s: State, s1: State, t: Thread)
    requires Timely(s, s1)
    ensures Timely(s, Stop(s1, t))
  {
    hide RowPast, PcPast, SameRow, CadencePast;
    forall i | |s.log| <= i < |s1.log| ensures EntryTimely(Stop(s1, t), i) { assert EntryTimely(s1, i); }
  }

  lemma GotoTimely(s: State, s1: State, t: Thread, pc: Pc)
    requires Timely(s, s1) && PcPast(pc, s1.clock)
    ensures Timely(s, Goto(s1, t, pc))
  {
    hide RowPast, PcPast, SameRow, EntryTimely, ThreadsTimely;
    forall i | |s.log| <= i < |s1.log| ensures EntryTimely(Goto(s1, t, pc), i) { SameEntry(s1, Goto(s1, t, pc), i); }
    GotoThreads(s, s1, t, pc);
  }

  lemma SameEntry(s1: State, s2: State, i: nat)
    requires s2.log == s1.log && s2.clock == s1.clock && i < |s1.log|
    ensures EntryTimely(s2, i) <==> EntryTimely(s1, i)
  {
  }

  lemma GotoThreads(s: State, s1: State, t: Thread, pc: Pc)
    requires ThreadsTimely(s, s1) && PcPast(pc, s1.clock)
    ensures ThreadsTimely(s, Goto(s1, t, pc))
  {
    hide PcPast;
  }

  lemma NoteTimely(s: State, s1: State, e: Event)
    requires Timely(s, s1) && s1.log == s.log && EntryTimely(Note(s1, e), |s.log|)
    ensures Timely(s, Note(s1, e))
  {
    hide RowPast, PcPast, SameRow, EntryTimely;
  }

  lemma RecordTimely(s: State, s1: State, t: Thread, e: Event, next: Option<Pc>)
    requires Timely(s, s1) && s1.log == s.log && EntryTimely(Note(s1, e), |s.log|)
    requires next.Some? ==> PcPast(next.value, s1.clock)
    ensures Timely(s, Record(s1, t, e, next))
  {
    hide Timely, EntryTimely, PcPast;
    NoteTimely(s, s1, e);
    if next.Some? { GotoTimely(s, Note(s1, e), t, next.value); } else { StopTimely(s, Note(s1, e), t); }
  }

  lemma TimelessEntry(s1: State, e: Event)
    requires Timeless(e)
    ensures EntryTimely(Note(s1, e), |s1.log|)
  {
  }

  /** The ways a step that writes no time ends. */
  lemma Endings(s: State, t: Thread)
    ensures forall s1 | SameTable(s, s1) :: Timely(s, s1) && Timely(s, Stop(s1, t))
    ensures forall s1, pc | SameTable(s, s1) && PcPast(pc, s1.clock) :: Timely(s, Goto(s1, t, pc))
    ensures forall s1, e: Event | SameTable(s, s1) && Timeless(e) :: Timely(s, Note(s1, e))
    ensures forall s1, e: Event, next: Option<Pc>
              | SameTable(s, s1) && Timeless(e) && (next.Some? ==> PcPast(next.value, s1.clock)) ::
              Timely(s, Record(s1, t, e, next))
  {
    hide Timely, EntryTimely, PcPast, Timeless, Stop, Goto, Note, Record;
    forall s1 | SameTable(s, s1) ensures Timely(s, s1) && Timely(s, Stop(s1, t)) {
      SameTimely(s, s1);
      StopTimely(s, s1, t);
    }
    forall s1, pc | SameTable(s, s1) && PcPast(pc, s1.clock) ensures Timely(s, Goto(s1, t, pc)) {
      SameTimely(s, s1);
      GotoTimely(s, s1, t, pc);
    }
    forall s1, e: Event | SameTable(s, s1) && Timeless(e) ensures Timely(s, Note(s1, e)) {
      SameTimely(s, s1);
      TimelessEntry(s1, e);
      NoteTimely(s, s1, e);
    }
    forall s1, e: Event, next: Option<Pc>
      | SameTable(s, s1) && Timeless(e) && (next.Some? ==> PcPast(next.value, s1.clock))
      ensures Timely(s, Record(s1, t, e, next))
    {
      SameTimely(s, s1);
      TimelessEntry(s1, e);
      RecordTimely(s, s1, t, e, next);
    }
  }

  lemma EndpointTimely(w: World, s: State, step: EndpointStep)
    ensures Timely(s, ApplyEndpoint(w, s, step))
  {
    hide Timely, Stop, Goto, Note, Record, GrantOf;
    Endings(s, step.t);
  }

  /** Rows may also take times that have come. */
  lemma WriteTimely(s: State, s1: State)
    requires s1.log == s.log && s1.threads == s.threads && s1.clock == s.clock
    requires forall id | id in s1.bindings ::
               (id in s.bindings && SameRow(s.bindings[id], s1.bindings[id])) || RowPast(s1.bindings[id], s.clock)
    ensures Timely(s, s1)
  {
    hide RowPast, SameRow, EntryTimely, PcPast;
  }

  /** The steps of requests that move a thread and write no time. */
  predicate MovesThread(step: RequestStep) {
    step.CreateStep? || step.PutStashStep? || step.ListPendingStep? || step.LoginChallengeStep? || step.IssueStep?
  }

  lemma MoveTimely(w: World, s: State, step: RequestStep)
    requires MovesThread(step)
    ensures Timely(s, ApplyRequest(w, s, step))
  {
    hide Timely, Stop, Goto, Record, Guard, Issue;
    Endings(s, Frames.RequestThread(step));
    if step.IssueStep? { IssueTimely(s, step.t, step.id, step.nonce); }
  }

  lemma IssueTimely(s: State, t: Thread, challenge: Id, nonce: string)
    ensures Timely(s, Issue(s, t, challenge, nonce))
  {
    hide Timely, Record, StoredPurpose;
    Endings(s, t);
  }

  lemma RequestTimely(w: World, s: State, step: RequestStep)
    requires Past(s)
    ensures Timely(s, ApplyRequest(w, s, step))
  {
    hide Timely, Past, Note, Enrol, RevokeDevice, SweepWrites, BuildChallengePayload, Create, PutStash, ListPending,
      StartLoginChallenge, Issue;
    Endings(s, 0);
    match step
    case EnrolStep(t, id, fixed) => EnrolTimely(s, t, id, fixed);
    case RevokeStep(id) => RevokeTimely(s, id);
    case SweepStep(citizen, write) => SweepTimely(s, citizen, write);
    case _ => if MovesThread(step) { MoveTimely(w, s, step); }
  }

  lemma EnrolTimely(s: State, t: Thread, id: Id, fixed: BindingKey)
    ensures Timely(s, Enrol(s, t, id, fixed))
  {
    hide Timely, Goto;
    Endings(s, t);
    if id !in s.used && id !in s.bindings && t !in s.threads {
      var row := Binding(fixed, Waiting, s.clock, None, None);
      var s1 := s.(bindings := s.bindings[id := row], used := s.used + {id});
      WriteTimely(s, s1);
      GotoTimely(s, s1, t, Issuing(Activation, id));
    }
  }

  lemma RevokeTimely(s: State, id: Id)
    ensures Timely(s, RevokeDevice(s, id))
  {
    hide Timely;
    WriteTimely(s, RevokeDevice(s, id));
  }

  lemma TouchPast(s: State, citizen: Id, now: nat)
    requires Past(s) && now <= s.clock
    ensures forall id | id in Touch(s.bindings, citizen, now) :: RowPast(Touch(s.bindings, citizen, now)[id], s.clock)
  {
  }

  lemma SweepTimely(s: State, citizen: Id, write: SweepWrite)
    requires Past(s)
    ensures Timely(s, SweepWrites(s, citizen, write))
  {
    hide Timely, Note, Past, Touch;
    Endings(s, 0);
    match write
    case Refresh(when) =>
      if when <= s.clock {
        TouchPast(s, citizen, when);
        var s1 := s.(bindings := Touch(s.bindings, citizen, when));
        WriteTimely(s, s1);
        TimelessEntry(s1, Swept(citizen, when));
        NoteTimely(s, s1, Swept(citizen, when));
      }
    case Suspend =>
    case RevokeBindings => WriteTimely(s, s.(bindings := RevokeActive(s.bindings, citizen)));
  }

  /** The steps of a handler that read or write no time. */
  predicate TimelessStep(step: HandlerStep) {
    || step.StartDecisionStep? || step.StartHandlerStep? || step.ReadTxnStep? || step.TakeStep? || step.VerifyStep?
  }

  lemma TimelessTimely(w: World, s: State, step: HandlerStep)
    requires TimelessStep(step)
    ensures Timely(s, ApplyHandler(w, s, step))
  {
    hide Timely, Stop, Goto, Record, Guard, StoredPurpose, BuildChallengePayload;
    Endings(s, step.t);
  }

  lemma ReadBindingTimely(s: State, t: Thread)
    requires Past(s)
    ensures Timely(s, HandlerReadsBinding(s, t))
  {
    hide Timely, Stop, Record, AlMeets;
    Endings(s, t);
    if t in s.threads && s.threads[t].Handling? && s.threads[t].req.binding in s.bindings {
      var pc := s.threads[t];
      var e := BindRead(pc.req, pc.at, s.bindings[pc.req.binding]);
      assert EntryTimely(Note(s, e), |s.log|);
      hide Past, EntryTimely;
      RecordTimely(s, s, t, e, Some(pc.(stage := AfterBinding(pc.req.purpose), at := |s.log|, bind := |s.log|)));
    }
  }

  lemma CheckDueTimely(w: World, s: State, t: Thread)
    requires Past(s)
    ensures Timely(s, HandlerChecksDue(w, s, t))
  {
    hide Timely, Stop, Goto, Record, Forced;
    Endings(s, t);
    if t in s.threads && s.threads[t].Handling? && IsBindRead(s, s.threads[t].bind) {
      var pc := s.threads[t];
      var e := Fresh(pc.req, pc.at, pc.bind, Cadence(s.clock));
      assert RowPast(s.log[pc.bind].found, s.clock);
      assert EntryTimely(Note(s, e), |s.log|);
      hide Past, EntryTimely;
      RecordTimely(s, s, t, e, Some(pc.(stage := AfterFresh(pc.req.purpose), at := |s.log|)));
    }
  }

  lemma TalkTimely(s: State, t: Thread, valid: bool)
    requires Past(s)
    ensures Timely(s, ReassertReadsCitizen(s, t)) && Timely(s, SdidAnswers(s, t, valid))
  {
    hide Timely, Stop, Goto;
    Endings(s, t);
    assert t in s.threads ==> PcPast(s.threads[t], s.clock);
  }

  lemma SdidWriteTimely(s: State, t: Thread)
    requires Past(s)
    ensures Timely(s, ReassertWrites(s, t))
  {
    hide Timely, Record, Goto, Touch, EntryTimely;
    Endings(s, t);
    if t in s.threads && s.threads[t].Handling? && s.threads[t].stage.WriteSdid? && IsBindRead(s, s.threads[t].bind) {
      var pc := s.threads[t];
      assert PcPast(pc, s.clock);
      TouchPast(s, s.log[pc.bind].found.fixed.citizen, pc.stage.now);
      hide Past;
      var s1 := s.(bindings := Touch(s.bindings, s.log[pc.bind].found.fixed.citizen, pc.stage.now));
      var e := Fresh(pc.req, pc.at, pc.bind, Answered(pc.stage.now));
      WriteTimely(s, s1);
      TimelessEntry(s1, e);
      RecordTimely(s, s1, t, e, Some(pc.(stage := AfterFresh(pc.req.purpose), at := |s.log|)));
    }
  }

  lemma SdidRevokeTimely(s: State, t: Thread)
    ensures Timely(s, ReassertRevokes(s, t))
  {
    hide Timely, Stop;
    Endings(s, t);
    if t in s.threads && s.threads[t].Handling? && IsBindRead(s, s.threads[t].bind) {
      var s1 := s.(bindings := RevokeActive(s.bindings, s.log[s.threads[t].bind].found.fixed.citizen));
      WriteTimely(s, s1);
      StopTimely(s, s1, t);
    }
  }

  lemma ActivateTimely(s: State, t: Thread, pc: Pc)
    requires Past(s) && pc.Handling? && pc.bind >= 0
    ensures Timely(s, Activate(s, t, pc))
  {
    hide Timely, Stop, Record, EntryTimely;
    Endings(s, t);
    var id := pc.req.binding;
    if id in s.bindings {
      assert RowPast(s.bindings[id], s.clock);
      hide Past;
      var s1 := s.(bindings := s.bindings[id := s.bindings[id].(status := Active, activatedAt := Some(s.clock))]);
      var e := Finished(pc.req, pc.at, pc.bind, s.clock);
      WriteTimely(s, s1);
      TimelessEntry(s1, e);
      RecordTimely(s, s1, t, e, None);
    }
  }

  lemma FinishTimely(s: State, t: Thread)
    requires Past(s)
    ensures Timely(s, HandlerFinishes(s, t))
  {
    hide Timely, Past, Stop, Record, Activate;
    Endings(s, t);
    if t in s.threads && s.threads[t].Handling? && IsBindRead(s, s.threads[t].bind) {
      ActivateTimely(s, t, s.threads[t]);
    }
  }

  lemma HandlerTimely(w: World, s: State, step: HandlerStep)
    requires Past(s)
    ensures Timely(s, ApplyHandler(w, s, step))
  {
    hide Timely, Past, HandlerReadsBinding, HandlerChecksDue, ReassertReadsCitizen, SdidAnswers, ReassertWrites,
      ReassertRevokes, HandlerFinishes, StartDecision, StartHandler, DecisionReadsTxn, HandlerTakes, HandlerVerifies;
    match step
    case ReadBindingStep(t) => ReadBindingTimely(s, t);
    case CheckDueStep(t) => CheckDueTimely(w, s, t);
    case ReadCitizenStep(t) => TalkTimely(s, t, true);
    case SdidAnswerStep(t, valid) => TalkTimely(s, t, valid);
    case SdidWriteStep(t) => SdidWriteTimely(s, t);
    case SdidRevokeStep(t) => SdidRevokeTimely(s, t);
    case FinishStep(t) => FinishTimely(s, t);
    case _ => TimelessTimely(w, s, step);
  }

  lemma {:induction false} ExecPast(w: World, steps: seq<Step>)
    ensures Past(Exec(w, steps))
  {
    hide Past, Timely, ApplyRequest, ApplyHandler, ApplyEndpoint;
    if steps == [] {
      NothingYet();
    } else {
      var s, step := Exec(w, steps[..|steps| - 1]), steps[|steps| - 1];
      ExecPast(w, steps[..|steps| - 1]);
      match step {
        case Around(st) => RequestTimely(w, s, st);
        case Handle(st) => HandlerTimely(w, s, st);
        case Endpoint(st) => EndpointTimely(w, s, st);
      }
      PastKept(s, Apply(w, s, step));
    }
  }

  lemma NothingYet()
    ensures Past(Init())
  {
  }
}
