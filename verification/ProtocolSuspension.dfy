/**
 * SDID is asked only about citizens who are not suspended, its refusal shuts the citizen out, and a revoked device is
 * out until it is activated again.
 */
module ProtocolSuspension {
  import opened Common
  import opened Challenge
  import opened Protocol
  import opened ProtocolInvariant
  import opened ProtocolPreserved
  import opened ProtocolRuns
  import opened ProtocolTheorems
  import Frames = ProtocolFrames

  /** The handler found its citizen not suspended, and has yet to write what SDID says. */
  predicate Asking(pc: Pc) { pc.Handling? && (pc.stage.AskSdid? || pc.stage.WriteSdid?) }

  predicate AskedBefore(s: State, t: Thread, bind: int) {
    t in s.threads && Asking(s.threads[t]) && s.threads[t].bind == bind
  }

  predicate Unsuspended(s: State, bind: int) {
    IsBindRead(s, bind) && s.log[bind].found.fixed.citizen !in s.suspended
  }

  predicate IsAnswer(e: Event) { e.Fresh? && e.contact.Answered? }

  ghost predicate ThreadsCareful(s: State, s': State) {
    forall t | t in s'.threads && Asking(s'.threads[t]) ::
      AskedBefore(s, t, s'.threads[t].bind) || Unsuspended(s, s'.threads[t].bind)
  }

  ghost predicate EntriesCareful(s: State, s': State) {
    s.log <= s'.log
    && forall i | |s.log| <= i < |s'.log| && IsAnswer(s'.log[i]) :: exists t :: AskedBefore(s, t, s'.log[i].bind)
  }

  /** A step moves a handler on to SDID only past the test of the citizen, and writes only such a handler's answer. */
  ghost predicate Careful(s: State, s': State) { ThreadsCareful(s, s') && EntriesCareful(s, s') }

  predicate SameThreads(s: State, s1: State) { s1.log == s.log && s1.threads == s.threads }

  /** The ways a step ends that has nothing to do with SDID. */
  lemma Endings(s: State, t: Thread)
    ensures forall s1 | SameThreads(s, s1) :: Careful(s, s1) && Careful(s, Stop(s1, t))
    ensures forall s1, pc | SameThreads(s, s1) && !Asking(pc) :: Careful(s, Goto(s1, t, pc))
    ensures forall s1, e: Event | SameThreads(s, s1) && !IsAnswer(e) :: Careful(s, Note(s1, e))
    ensures forall s1, e: Event, next: Option<Pc>
              | SameThreads(s, s1) && !IsAnswer(e) && (next.Some? ==> !Asking(next.value)) ::
              Careful(s, Record(s1, t, e, next))
  {
    hide Asking, IsAnswer;
  }

  lemma EndpointCareful(w: World, s: State, step: EndpointStep)
    ensures Careful(s, ApplyEndpoint(w, s, step))
  {
    hide Careful, Stop, Goto, Note, Record, GrantOf, Redeem;
    Endings(s, step.t);
    if step.CibaConsumeStep? || step.PollConsumeStep? { ConsumeCareful(s, step.t); }
  }

  lemma ConsumeCareful(s: State, t: Thread)
    ensures Careful(s, CibaGrantConsumes(s, t)) && Careful(s, PollConsumes(s, t))
  {
    hide Careful, Stop, Record;
    Endings(s, t);
  }

  lemma RequestCareful(w: World, s: State, step: RequestStep)
    ensures Careful(s, ApplyRequest(w, s, step))
  {
    hide Careful, Note, Create, PutStash, Enrol, RevokeDevice, ListPending, StartLoginChallenge, Issue, SweepWrites,
      BuildChallengePayload;
    Endings(s, Frames.RequestThread(step));
    match step
    case SweepStep(citizen, write) => SweepCareful(s, citizen, write);
    case RevokeStep(id) => RevokeCareful(s, id);
    case _ => if MovesThread(step) { MoveCareful(w, s, step); }
  }

  predicate MovesThread(step: RequestStep) {
    || step.CreateStep? || step.PutStashStep? || step.EnrolStep? || step.ListPendingStep? || step.LoginChallengeStep?
    || step.IssueStep?
  }

  lemma MoveCareful(w: World, s: State, step: RequestStep)
    requires MovesThread(step)
    ensures Careful(s, ApplyRequest(w, s, step))
  {
    hide Careful, Stop, Goto, Record, Guard, Create, PutStash, Issue;
    Endings(s, Frames.RequestThread(step));
    match step
    case IssueStep(t, id, nonce) => IssueCareful(s, t, id, nonce);
    case CreateStep(t, id, fixed) => CreateCareful(s, t, id, fixed);
    case PutStashStep(t) => StashCareful(s, t);
    case _ =>
  }

  lemma CreateCareful(s: State, t: Thread, id: Id, fixed: Request)
    ensures Careful(s, Create(s, t, id, fixed))
  {
    hide Careful, Goto, ColonFree;
    Endings(s, t);
  }

  lemma StashCareful(s: State, t: Thread)
    ensures Careful(s, PutStash(s, t))
  {
    hide Careful, Stop;
    Endings(s, t);
  }

  lemma IssueCareful(s: State, t: Thread, challenge: Id, nonce: string)
    ensures Careful(s, Issue(s, t, challenge, nonce))
  {
    hide Careful, Record, StoredPurpose;
    Endings(s, t);
  }

  lemma SweepCareful(s: State, citizen: Id, write: SweepWrite)
    ensures Careful(s, SweepWrites(s, citizen, write))
  {
    hide Careful, Note, Touch, RevokeActive;
    Endings(s, 0);
  }

  lemma RevokeCareful(s: State, id: Id)
    ensures Careful(s, RevokeDevice(s, id))
  {
    hide Careful;
    Endings(s, 0);
  }

  /** Moving a handler on to SDID, past the test or further along. */
  lemma GotoCareful(s: State, t: Thread, pc: Pc)
    requires pc.Handling? && (AskedBefore(s, t, pc.bind) || Unsuspended(s, pc.bind))
    ensures Careful(s, Goto(s, t, pc))
  {
    hide Unsuspended;
  }

  lemma ReadCitizenCareful(s: State, t: Thread)
    ensures Careful(s, ReassertReadsCitizen(s, t))
  {
    hide Careful, Stop, Goto;
    Endings(s, t);
    if t in s.threads && s.threads[t].Handling? && s.threads[t].stage.ReadCitizen?
        && Unsuspended(s, s.threads[t].bind) {
      GotoCareful(s, t, s.threads[t].(stage := AskSdid(s.threads[t].stage.now)));
    }
  }

  lemma AnswerCareful(s: State, t: Thread, valid: bool)
    ensures Careful(s, SdidAnswers(s, t, valid))
  {
    hide Careful, Goto;
    Endings(s, t);
    if t in s.threads && s.threads[t].Handling? && s.threads[t].stage.AskSdid? {
      GotoCareful(s, t, s.threads[t].(stage := WriteSdid(s.threads[t].stage.now, valid)));
    }
  }

  lemma WriteCareful(s: State, t: Thread)
    ensures Careful(s, ReassertWrites(s, t))
  {
    hide Touch;
    if t in s.threads && Asking(s.threads[t]) { assert AskedBefore(s, t, s.threads[t].bind); }
  }

  /** The steps of a handler outside its talk with SDID. */
  predicate NotAsking(step: HandlerStep) { !step.ReadCitizenStep? && !step.SdidAnswerStep? && !step.SdidWriteStep? }

  lemma OtherCareful(w: World, s: State, step: HandlerStep)
    requires NotAsking(step)
    ensures Careful(s, ApplyHandler(w, s, step))
  {
    hide Careful, Stop, Goto, Record, Guard, Forced, StoredPurpose, BuildChallengePayload, AlMeets, RevokeActive,
      ReassertReadsCitizen, SdidAnswers, ReassertWrites, HandlerFinishes;
    Endings(s, step.t);
    if step.FinishStep? { FinishCareful(s, step.t); }
  }

  lemma FinishCareful(s: State, t: Thread)
    ensures Careful(s, HandlerFinishes(s, t))
  {
    hide Careful, Stop, Record;
    Endings(s, t);
  }

  lemma StepCareful(w: World, s: State, step: Step)
    ensures Careful(s, Apply(w, s, step))
  {
    hide Careful, ApplyRequest, ApplyEndpoint, ReassertReadsCitizen, SdidAnswers, ReassertWrites;
    match step
    case Around(st) => RequestCareful(w, s, st);
    case Endpoint(st) => EndpointCareful(w, s, st);
    case Handle(st) =>
      match st {
        case ReadCitizenStep(t) => ReadCitizenCareful(s, t);
        case SdidAnswerStep(t, valid) => AnswerCareful(s, t, valid);
        case SdidWriteStep(t) => WriteCareful(s, t);
        case _ => OtherCareful(w, s, st);
      }
  }

  // ----------------------------------------------------------- along a whole run

  /** After `j` steps, between entry `bind` and entry `n`, the citizen was not suspended. */
  ghost predicate ClearAt(w: World, steps: seq<Step>, j: nat, citizen: Id, bind: int, n: int) {
    j <= |steps| && bind < |Exec(w, steps[..j]).log| <= n && citizen !in Exec(w, steps[..j]).suspended
  }

  /** At some moment between entry `bind`, which read the binding, and entry `n` its citizen was not suspended. */
  ghost predicate Cleared(w: World, steps: seq<Step>, bind: int, n: int) {
    var s := Exec(w, steps);
    IsBindRead(s, bind) && exists j: nat :: ClearAt(w, steps, j, s.log[bind].found.fixed.citizen, bind, n)
  }

  ghost predicate AllCleared(w: World, steps: seq<Step>) {
    var s := Exec(w, steps);
    && (forall t | t in s.threads && Asking(s.threads[t]) :: Cleared(w, steps, s.threads[t].bind, |s.log|))
    && (forall i | 0 <= i < |s.log| && IsAnswer(s.log[i]) :: Cleared(w, steps, s.log[i].bind, i))
  }

  lemma ClearedLater(w: World, steps: seq<Step>, bind: int, n: int, m: int)
    requires steps != [] && Cleared(w, steps[..|steps| - 1], bind, n) && n <= m
    requires Exec(w, steps[..|steps| - 1]).log <= Exec(w, steps).log
    ensures Cleared(w, steps, bind, m)
  {
    hide Exec;
    var front := steps[..|steps| - 1];
    var citizen := Exec(w, front).log[bind].found.fixed.citizen;
    var j: nat :| ClearAt(w, front, j, citizen, bind, n);
    assert front[..j] == steps[..j];
    assert ClearAt(w, steps, j, citizen, bind, m);
  }

  lemma ClearedNow(w: World, steps: seq<Step>, bind: int)
    requires steps != [] && Unsuspended(Exec(w, steps[..|steps| - 1]), bind)
    requires Exec(w, steps[..|steps| - 1]).log <= Exec(w, steps).log
    ensures Cleared(w, steps, bind, |Exec(w, steps).log|)
  {
    hide Exec;
    assert ClearAt(w, steps, |steps| - 1, Exec(w, steps).log[bind].found.fixed.citizen, bind, |Exec(w, steps).log|);
  }

  lemma {:induction false} ExecCleared(w: World, steps: seq<Step>)
    ensures AllCleared(w, steps)
  {
    if steps != [] {
      var front := steps[..|steps| - 1];
      ExecCleared(w, front);
      StepCareful(w, Exec(w, front), steps[|steps| - 1]);
      ClearedStep(w, steps);
    }
  }

  lemma ClearedStep(w: World, steps: seq<Step>)
    requires steps != [] && AllCleared(w, steps[..|steps| - 1])
    requires Careful(Exec(w, steps[..|steps| - 1]), Exec(w, steps))
    ensures AllCleared(w, steps)
  {
    hide Exec, Cleared, Unsuspended;
    var front := steps[..|steps| - 1];
    var s, s' := Exec(w, front), Exec(w, steps);
    forall t | t in s'.threads && Asking(s'.threads[t]) ensures Cleared(w, steps, s'.threads[t].bind, |s'.log|) {
      ThreadCleared(w, steps, t);
    }
    forall i | 0 <= i < |s'.log| && IsAnswer(s'.log[i]) ensures Cleared(w, steps, s'.log[i].bind, i) {
      EntryCleared(w, steps, i);
    }
  }

  lemma ThreadCleared(w: World, steps: seq<Step>, t: Thread)
    requires steps != [] && AllCleared(w, steps[..|steps| - 1])
    requires Careful(Exec(w, steps[..|steps| - 1]), Exec(w, steps))
    requires t in Exec(w, steps).threads && Asking(Exec(w, steps).threads[t])
    ensures Cleared(w, steps, Exec(w, steps).threads[t].bind, |Exec(w, steps).log|)
  {
    hide Exec, Cleared, Unsuspended;
    var s, s' := Exec(w, steps[..|steps| - 1]), Exec(w, steps);
    var bind := s'.threads[t].bind;
    if AskedBefore(s, t, bind) { ClearedLater(w, steps, bind, |s.log|, |s'.log|); } else { ClearedNow(w, steps, bind); }
  }

  lemma EntryCleared(w: World, steps: seq<Step>, i: nat)
    requires steps != [] && AllCleared(w, steps[..|steps| - 1])
    requires Careful(Exec(w, steps[..|steps| - 1]), Exec(w, steps))
    requires i < |Exec(w, steps).log| && IsAnswer(Exec(w, steps).log[i])
    ensures Cleared(w, steps, Exec(w, steps).log[i].bind, i)
  {
    hide Exec, Cleared, ThreadsCareful;
    var s, s' := Exec(w, steps[..|steps| - 1]), Exec(w, steps);
    var bind := s'.log[i].bind;
    if i < |s.log| {
      assert s.log[i] == s'.log[i];
      ClearedLater(w, steps, bind, i, i);
    } else {
      var t :| AskedBefore(s, t, bind);
      ClearedLater(w, steps, bind, |s.log|, i);
    }
  }

  /**
   * Where an accepted login or approval rests on SDID's answer, there was a moment between the reading of its binding
   * and that answer at which the binding's citizen was not suspended.
   */
  lemma AcceptedWereNotSuspended(w: World, steps: seq<Step>, done: nat)
    requires done < |Exec(w, steps).log| && Exec(w, steps).log[done].Finished?
    requires Exec(w, steps).log[done].req.purpose.Login? || Exec(w, steps).log[done].req.purpose.CibaApprove?
    ensures var log := Exec(w, steps).log;
      var ev, req := EvidenceOf(log, done), log[done].req;
      && Proved(log, ev, req) && Reverified(w, log, ev, req)
      && (log[ev.recent].contact.Answered? ==> Cleared(w, steps, ev.bind, ev.recent))
  {
    hide Inv, Exec, EvidenceOf, Agreed, Entitled, StepUpAnswered, Cleared;
    ExecInv(w, steps);
    ExecCleared(w, steps);
    FinishedEvidence(w, Exec(w, steps), done);
  }

  // ---------------------------------------------------------------- the refusal

  /** A handler whose SDID said invalid goes on to suspend the citizen, then to revoke, and then ends. */
  lemma RefusalShutsOut(s: State, t: Thread, pc: Pc, s': State)
    requires t in s.threads && s.threads[t] == pc && Asking(pc) && pc.stage.WriteSdid? && !pc.stage.valid
    requires IsBindRead(s, pc.bind) && s.log <= s'.log
    requires t in s'.threads && s'.threads[t] == ReassertWrites(s, t).threads[t]
    ensures var citizen := s.log[pc.bind].found.fixed.citizen;
      && citizen in ReassertWrites(s, t).suspended && ReassertWrites(s, t).log == s.log
      && t !in ReassertRevokes(s', t).threads && ReassertRevokes(s', t).log == s'.log
      && forall b | b in s'.bindings ::
           && b in ReassertRevokes(s', t).bindings
           && ReassertRevokes(s', t).bindings[b] ==
                if s'.bindings[b].fixed.citizen == citizen && s'.bindings[b].status == Active
                then s'.bindings[b].(status := Revoked) else s'.bindings[b]
  {
  }

  /** So do the writes of the sweep, which talks to SDID by itself. */
  lemma SweepShutsOutOrRefreshes(s: State, citizen: Id, write: SweepWrite)
    ensures var s' := SweepWrites(s, citizen, write);
      && s'.bindings.Keys == s.bindings.Keys
      && (write.Suspend? ==> citizen in s'.suspended)
      && (write.Refresh? && write.when <= s.clock ==> s'.log == s.log + [Swept(citizen, write.when)])
      && forall b | b in s'.bindings && s'.bindings[b].fixed.citizen == citizen && s'.bindings[b].status == Active ::
           && !write.RevokeBindings?
           && (write.Refresh? && write.when <= s.clock ==> s'.bindings[b].lastReassertedAt == Some(write.when))
  {
  }

  // --------------------------------------------------------------- a spent challenge

  /** The record the request needs: of its purpose and binding. */
  predicate Matches(s: State, req: Req) {
    && req.challenge in s.challenges && s.challenges[req.challenge].binding == req.binding
    && s.challenges[req.challenge].purpose == StoredPurpose(req.purpose)
  }

  /** GETDEL: whether or not the request matches its record, a challenge that a handler takes is gone. */
  lemma TakingSpends(s: State, t: Thread)
    requires t in s.threads && s.threads[t].Handling? && s.threads[t].stage == Take && IsBindRead(s, s.threads[t].bind)
    ensures HandlerTakes(s, t).challenges == s.challenges - {s.threads[t].req.challenge}
    ensures HandlerTakes(s, t).log != s.log <==> Matches(s, s.threads[t].req)
  {
    hide StoredPurpose, Stop, Record;
    Ends(s, t);
    var c := s.threads[t].req.challenge;
    if c !in s.challenges { assert s.challenges - {c} == s.challenges; }
  }

  lemma Ends(s: State, t: Thread)
    ensures forall s1: State :: Stop(s1, t).challenges == s1.challenges && Stop(s1, t).log == s1.log
    ensures forall s1: State, e: Event, next: Option<Pc> ::
              Record(s1, t, e, next).challenges == s1.challenges && Record(s1, t, e, next).log == s1.log + [e]
  {
  }

  // ------------------------------------------------------------------- revocation

  predicate ActivationOf(e: Event, id: Id) { e.Finished? && e.req.purpose.Activation? && e.req.binding == id }

  /** Of the bindings not active, a step makes active only the one whose activation it writes. */
  ghost predicate Quiet(s: State, s': State) {
    && s.log <= s'.log
    && forall id | id in s.bindings ::
         && id in s'.bindings
         && (s.bindings[id].status != Active && s'.bindings[id].status == Active ==>
               |s.log| < |s'.log| && ActivationOf(s'.log[|s.log|], id))
  }

  predicate NoneRevived(s: State, s1: State) {
    && s1.log == s.log
    && forall id | id in s.bindings ::
         id in s1.bindings && (s.bindings[id].status != Active ==> s1.bindings[id].status != Active)
  }

  lemma QuietEndings(s: State, t: Thread)
    ensures forall s1 | NoneRevived(s, s1) :: Quiet(s, s1) && Quiet(s, Stop(s1, t))
    ensures forall s1, pc | NoneRevived(s, s1) :: Quiet(s, Goto(s1, t, pc))
    ensures forall s1, e: Event | NoneRevived(s, s1) :: Quiet(s, Note(s1, e))
    ensures forall s1, e: Event, next: Option<Pc> | NoneRevived(s, s1) :: Quiet(s, Record(s1, t, e, next))
  {
  }

  /** The rows a step may write without reviving any. */
  lemma Rows(s: State)
    ensures forall s1: State | s1.log == s.log && s1.bindings == s.bindings :: NoneRevived(s, s1)
    ensures forall s1: State, c, at: nat | s1.log == s.log && s1.bindings == Touch(s.bindings, c, at) ::
              NoneRevived(s, s1)
    ensures forall s1: State, c | s1.log == s.log && s1.bindings == RevokeActive(s.bindings, c) :: NoneRevived(s, s1)
  {
  }

  lemma RequestQuiet(w: World, s: State, step: RequestStep)
    ensures Quiet(s, ApplyRequest(w, s, step))
  {
    hide Quiet, NoneRevived, Note, Create, PutStash, Enrol, RevokeDevice, ListPending, StartLoginChallenge, Issue,
      SweepWrites, BuildChallengePayload;
    QuietEndings(s, Frames.RequestThread(step));
    Rows(s);
    match step
    case SweepStep(citizen, write) => SweepQuiet(s, citizen, write);
    case RevokeStep(id) => RevokeQuiet(s, id);
    case EnrolStep(t, id, fixed) => EnrolQuiet(s, t, id, fixed);
    case _ => if MovesThread(step) { MoveQuiet(w, s, step); }
  }

  lemma MoveQuiet(w: World, s: State, step: RequestStep)
    requires MovesThread(step) && !step.EnrolStep?
    ensures Quiet(s, ApplyRequest(w, s, step))
  {
    hide Quiet, NoneRevived, Stop, Goto, Record, Guard, StoredPurpose;
    QuietEndings(s, Frames.RequestThread(step));
    Rows(s);
  }

  lemma SweepQuiet(s: State, citizen: Id, write: SweepWrite)
    ensures Quiet(s, SweepWrites(s, citizen, write))
  {
    hide Quiet, NoneRevived, Note, Touch, RevokeActive;
    QuietEndings(s, 0);
    Rows(s);
  }

  lemma RevokeQuiet(s: State, id: Id)
    ensures Quiet(s, RevokeDevice(s, id))
  {
  }

  lemma EnrolQuiet(s: State, t: Thread, id: Id, fixed: BindingKey)
    ensures Quiet(s, Enrol(s, t, id, fixed))
  {
    hide Quiet, Goto;
    QuietEndings(s, t);
    if id !in s.bindings {
      var row := Binding(fixed, Waiting, s.clock, None, None);
      assert NoneRevived(s, s.(bindings := s.bindings[id := row], used := s.used + {id}));
    }
  }

  lemma ActivateQuiet(s: State, t: Thread, pc: Pc)
    requires pc.Handling? && pc.bind >= 0 && pc.req.purpose.Activation?
    ensures Quiet(s, Activate(s, t, pc))
  {
  }

  lemma HandlerQuiet(w: World, s: State, step: HandlerStep)
    ensures Quiet(s, ApplyHandler(w, s, step))
  {
    hide Quiet, NoneRevived, Stop, Goto, Record, Guard, Forced, StoredPurpose, BuildChallengePayload, AlMeets, Touch,
      RevokeActive, ReassertWrites, ReassertRevokes, HandlerFinishes;
    QuietEndings(s, step.t);
    Rows(s);
    match step
    case SdidWriteStep(t) => WritesQuiet(s, t);
    case SdidRevokeStep(t) => WritesQuiet(s, t);
    case FinishStep(t) => FinishQuiet(s, t);
    case _ =>
  }

  lemma WritesQuiet(s: State, t: Thread)
    ensures Quiet(s, ReassertWrites(s, t)) && Quiet(s, ReassertRevokes(s, t))
  {
    hide Quiet, NoneRevived, Stop, Goto, Record, Touch, RevokeActive;
    QuietEndings(s, t);
    Rows(s);
  }

  lemma FinishQuiet(s: State, t: Thread)
    ensures Quiet(s, HandlerFinishes(s, t))
  {
    hide Quiet, NoneRevived, Stop, Record, Activate;
    QuietEndings(s, t);
    Rows(s);
    if t in s.threads && s.threads[t].Handling? && IsBindRead(s, s.threads[t].bind)
        && s.threads[t].req.purpose.Activation? {
      ActivateQuiet(s, t, s.threads[t]);
    }
  }

  lemma EndpointQuiet(w: World, s: State, step: EndpointStep)
    ensures Quiet(s, ApplyEndpoint(w, s, step))
  {
    hide Quiet, NoneRevived, Stop, Goto, Record, GrantOf;
    QuietEndings(s, step.t);
    Rows(s);
  }

  lemma StepQuiet(w: World, s: State, step: Step)
    ensures Quiet(s, Apply(w, s, step))
  {
    hide Quiet, ApplyRequest, ApplyHandler, ApplyEndpoint;
    match step
    case Around(st) => RequestQuiet(w, s, st);
    case Handle(st) => HandlerQuiet(w, s, st);
    case Endpoint(st) => EndpointQuiet(w, s, st);
  }

  /** Some entry from `from` on, before `n`, finished the activation of the binding. */
  ghost predicate ActivatedIn(log: seq<Event>, from: int, n: int, id: Id) {
    exists j :: 0 <= from <= j < n <= |log| && ActivationOf(log[j], id)
  }

  /** Not active, or activated since entry `from`. */
  ghost predicate Out(s: State, from: int, id: Id) {
    id in s.bindings && (s.bindings[id].status == Active ==> ActivatedIn(s.log, from, |s.log|, id))
  }

  lemma StaysOut(s: State, s': State, from: nat, id: Id)
    requires Quiet(s, s') && Out(s, from, id) && from <= |s.log|
    ensures Out(s', from, id)
  {
    if s.bindings[id].status == Active {
      var j :| from <= j < |s.log| && ActivationOf(s.log[j], id);
      assert ActivationOf(s'.log[j], id);
    } else if s'.bindings[id].status == Active {
      assert ActivationOf(s'.log[|s.log|], id);
    }
  }

  lemma {:induction false} InactiveUntil(w: World, steps: seq<Step>, k: nat, id: Id)
    requires k <= |steps| && id in Exec(w, steps[..k]).bindings && Exec(w, steps[..k]).bindings[id].status != Active
    ensures Out(Exec(w, steps), |Exec(w, steps[..k]).log|, id)
    decreases |steps| - k
  {
    if k == |steps| {
      assert steps[..k] == steps;
    } else {
      var front := steps[..|steps| - 1];
      assert front[..k] == steps[..k];
      InactiveUntil(w, front, k, id);
      LogGrows(w, front, k);
      var s, step := Exec(w, front), steps[|steps| - 1];
      assert Exec(w, steps) == Apply(w, s, step);
      hide *;
      StepQuiet(w, s, step);
      StaysOut(s, Apply(w, s, step), |Exec(w, steps[..k]).log|, id);
    }
  }

  /**
   * Revocation takes effect at once: whichever handler reads the binding active afterwards reads it after an activation
   * that finished since.
   */
  lemma RevokedNeedsActivation(w: World, steps: seq<Step>, k: nat, id: Id, i: nat)
    requires k < |steps| && steps[k] == Around(RevokeStep(id)) && id in Exec(w, steps[..k]).bindings
    requires |Exec(w, steps[..k + 1]).log| <= i < |Exec(w, steps).log|
    requires var e := Exec(w, steps).log[i]; e.BindRead? && e.req.binding == id && e.found.status == Active
    ensures ActivatedIn(Exec(w, steps).log, |Exec(w, steps[..k + 1]).log|, i, id)
  {
    hide Exec, Apply, Inv;
    ExecStep(w, steps, k);
    Revokes(w, Exec(w, steps[..k]), id);
    LogIsTrue(w, steps, i);
    var m: nat :| WrittenBy(w, steps, i, m);
    var read := steps[..m];
    if m <= k {
      assert steps[..k + 1][..m + 1] == steps[..m + 1];
      LogGrows(w, steps[..k + 1], m + 1);
      assert false;
    } else {
      assert read[..k + 1] == steps[..k + 1];
      InactiveUntil(w, read, k + 1, id);
      LogGrows(w, steps, m);
    }
  }

  lemma Revokes(w: World, s: State, id: Id)
    requires id in s.bindings
    ensures var s' := Apply(w, s, Around(RevokeStep(id))); id in s'.bindings && s'.bindings[id].status == Revoked
  {
  }
}
