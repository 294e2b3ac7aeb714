/** For whom the broker issues challenges. */
module ProtocolIssuing {
  import opened Common
  import opened Challenge
  import opened Protocol
  import opened ProtocolRuns
  import Frames = ProtocolFrames

  /** The transaction is listed to this binding: its citizen's own, logged in, active; and it is still to be decided. */
  predicate Listed(s: State, txn: Id, binding: Id) {
    && txn in s.txns && s.txns[txn].status == Pending && s.txns[txn].fixed.expiresAt > s.clock
    && binding in s.bindings && s.bindings[binding].status == Active
    && s.bindings[binding].fixed.citizen == s.txns[txn].fixed.citizen
    && (s.txns[txn].fixed.citizen, binding) in s.sessions
  }

  /** What must hold when the broker sets out to issue a challenge. */
  predicate MayIssue(s: State, p: Purpose, binding: Id) {
    match p
    case CibaApprove(txn) => Listed(s, txn, binding)
    case Login => binding in s.bindings && s.bindings[binding].status == Active
    case Activation => binding !in s.bindings && binding !in s.used   // the enrolment itself, which inserts the binding
    case _ => false
  }

  /** Some thread was about to issue this. */
  predicate IssuedBy(s: State, t: Thread, stored: string, binding: Id) {
    t in s.threads && s.threads[t].Issuing? && s.threads[t].binding == binding
    && stored == StoredPurpose(s.threads[t].purpose)
  }

  ghost predicate ThreadsMindful(s: State, s': State) {
    forall t | t in s'.threads && s'.threads[t].Issuing? ::
      (t in s.threads && s.threads[t] == s'.threads[t]) || MayIssue(s, s'.threads[t].purpose, s'.threads[t].binding)
  }

  ghost predicate EntriesMindful(s: State, s': State) {
    s.log <= s'.log
    && forall i | |s.log| <= i < |s'.log| && s'.log[i].Issued? ::
         exists t :: IssuedBy(s, t, s'.log[i].stored, s'.log[i].binding)
  }

  ghost predicate Mindful(s: State, s': State) { ThreadsMindful(s, s') && EntriesMindful(s, s') }

  predicate SameThreads(s: State, s1: State) { s1.log == s.log && s1.threads == s.threads }

  /** The ways a step ends that has nothing to do with issuing. */
  lemma Endings(s: State, t: Thread)
    ensures forall s1 | SameThreads(s, s1) :: Mindful(s, s1) && Mindful(s, Stop(s1, t))
    ensures forall s1, pc: Pc | SameThreads(s, s1) && !pc.Issuing? :: Mindful(s, Goto(s1, t, pc))
    ensures forall s1, e: Event | SameThreads(s, s1) && !e.Issued? :: Mindful(s, Note(s1, e))
    ensures forall s1, e: Event, next: Option<Pc>
              | SameThreads(s, s1) && !e.Issued? && (next.Some? ==> !next.value.Issuing?) ::
              Mindful(s, Record(s1, t, e, next))
  {
    hide MayIssue;
  }

  lemma GotoMindful(s: State, s1: State, t: Thread, p: Purpose, binding: Id)
    requires SameThreads(s, s1) && MayIssue(s, p, binding)
    ensures Mindful(s, Goto(s1, t, Issuing(p, binding)))
  {
    hide MayIssue;
  }

  lemma EnrolMindful(s: State, t: Thread, id: Id, fixed: BindingKey)
    ensures Mindful(s, Enrol(s, t, id, fixed))
  {
    hide Mindful, Goto;
    Endings(s, t);
    if id !in s.used && id !in s.bindings {
      var row := Binding(fixed, Waiting, s.clock, None, None);
      GotoMindful(s, s.(bindings := s.bindings[id := row], used := s.used + {id}), t, Activation, id);
    }
  }

  lemma ListMindful(s: State, t: Thread, citizen: Id, binding: Id, txn: Id)
    ensures Mindful(s, ListPending(s, t, citizen, binding, txn))
    ensures Mindful(s, StartLoginChallenge(s, t, binding))
  {
    hide Mindful, Goto;
    Endings(s, t);
    if MayIssue(s, CibaApprove(txn), binding) { GotoMindful(s, s, t, CibaApprove(txn), binding); }
    if MayIssue(s, Login, binding) { GotoMindful(s, s, t, Login, binding); }
  }

  lemma IssueMindful(s: State, t: Thread, challenge: Id, nonce: string)
    ensures Mindful(s, Issue(s, t, challenge, nonce))
  {
    hide StoredPurpose, MayIssue;
    if t in s.threads && s.threads[t].Issuing? {
      assert IssuedBy(s, t, StoredPurpose(s.threads[t].purpose), s.threads[t].binding);
    }
  }

  lemma RequestMindful(w: World, s: State, step: RequestStep)
    ensures Mindful(s, ApplyRequest(w, s, step))
  {
    hide Mindful, Stop, Goto, Note, Enrol, RevokeDevice, ListPending, StartLoginChallenge, Issue, SweepWrites,
      BuildChallengePayload;
    Endings(s, Frames.RequestThread(step));
    match step
    case EnrolStep(t, id, fixed) => EnrolMindful(s, t, id, fixed);
    case ListPendingStep(t, citizen, binding, id) => ListMindful(s, t, citizen, binding, id);
    case LoginChallengeStep(t, binding) => ListMindful(s, t, "", binding, "");
    case IssueStep(t, id, nonce) => IssueMindful(s, t, id, nonce);
    case SweepStep(citizen, write) => SweepMindful(s, citizen, write);
    case RevokeStep(id) => RevokeMindful(s, id);
    case _ =>
  }

  lemma SweepMindful(s: State, citizen: Id, write: SweepWrite)
    ensures Mindful(s, SweepWrites(s, citizen, write))
  {
    hide Mindful, Note, Touch, RevokeActive;
    Endings(s, 0);
  }

  lemma RevokeMindful(s: State, id: Id)
    ensures Mindful(s, RevokeDevice(s, id))
  {
    hide Mindful;
    Endings(s, 0);
  }

  lemma HandlerMindful(w: World, s: State, step: HandlerStep)
    ensures Mindful(s, ApplyHandler(w, s, step))
  {
    hide Mindful, Stop, Goto, Record, Guard, Forced, StoredPurpose, BuildChallengePayload, AlMeets, Touch,
      RevokeActive, ReassertWrites, ReassertRevokes, HandlerFinishes;
    Endings(s, step.t);
    if step.SdidWriteStep? || step.SdidRevokeStep? { WritesMindful(s, step.t); }
    if step.FinishStep? { FinishMindful(s, step.t); }
  }

  lemma WritesMindful(s: State, t: Thread)
    ensures Mindful(s, ReassertWrites(s, t)) && Mindful(s, ReassertRevokes(s, t))
  {
    hide Mindful, Stop, Goto, Record, Touch, RevokeActive;
    Endings(s, t);
  }

  lemma FinishMindful(s: State, t: Thread)
    ensures Mindful(s, HandlerFinishes(s, t))
  {
    hide Mindful, Stop, Record;
    Endings(s, t);
  }

  lemma EndpointMindful(w: World, s: State, step: EndpointStep)
    ensures Mindful(s, ApplyEndpoint(w, s, step))
  {
    hide Mindful, Stop, Goto, Record, GrantOf;
    Endings(s, step.t);
  }

  lemma StepMindful(w: World, s: State, step: Step)
    ensures Mindful(s, Apply(w, s, step))
  {
    hide Mindful, ApplyRequest, ApplyHandler, ApplyEndpoint;
    match step
    case Around(st) => RequestMindful(w, s, st);
    case Handle(st) => HandlerMindful(w, s, st);
    case Endpoint(st) => EndpointMindful(w, s, st);
  }

  // ----------------------------------------------------------- along a whole run

  /** After `j` steps, with at most `n` entries written, the challenge was due. */
  ghost predicate DueAt(w: World, steps: seq<Step>, j: nat, p: Purpose, binding: Id, n: int) {
    j <= |steps| && |Exec(w, steps[..j]).log| <= n && MayIssue(Exec(w, steps[..j]), p, binding)
  }

  ghost predicate WasDue(w: World, steps: seq<Step>, p: Purpose, binding: Id, n: int) {
    exists j: nat :: DueAt(w, steps, j, p, binding, n)
  }

  /** The entry names the purpose of some request that was due before it. */
  ghost predicate EntryDue(w: World, steps: seq<Step>, i: int)
    requires 0 <= i < |Exec(w, steps).log| && Exec(w, steps).log[i].Issued?
  {
    var e := Exec(w, steps).log[i];
    exists p :: e.stored == StoredPurpose(p) && WasDue(w, steps, p, e.binding, i)
  }

  ghost predicate AllDue(w: World, steps: seq<Step>) {
    var s := Exec(w, steps);
    && (forall t | t in s.threads && s.threads[t].Issuing? ::
          WasDue(w, steps, s.threads[t].purpose, s.threads[t].binding, |s.log|))
    && (forall i | 0 <= i < |s.log| && s.log[i].Issued? :: EntryDue(w, steps, i))
  }

  lemma DueLater(w: World, steps: seq<Step>, p: Purpose, binding: Id, n: int, m: int)
    requires steps != [] && WasDue(w, steps[..|steps| - 1], p, binding, n) && n <= m
    ensures WasDue(w, steps, p, binding, m)
  {
    hide Exec, MayIssue;
    var front := steps[..|steps| - 1];
    var j: nat :| DueAt(w, front, j, p, binding, n);
    assert front[..j] == steps[..j];
    assert DueAt(w, steps, j, p, binding, m);
  }

  lemma DueNow(w: World, steps: seq<Step>, p: Purpose, binding: Id)
    requires steps != [] && MayIssue(Exec(w, steps[..|steps| - 1]), p, binding)
    requires Exec(w, steps[..|steps| - 1]).log <= Exec(w, steps).log
    ensures WasDue(w, steps, p, binding, |Exec(w, steps).log|)
  {
    hide Exec, MayIssue;
    assert DueAt(w, steps, |steps| - 1, p, binding, |Exec(w, steps).log|);
  }

  lemma ThreadDue(w: World, steps: seq<Step>, t: Thread)
    requires steps != [] && AllDue(w, steps[..|steps| - 1])
    requires Mindful(Exec(w, steps[..|steps| - 1]), Exec(w, steps))
    requires t in Exec(w, steps).threads && Exec(w, steps).threads[t].Issuing?
    ensures var pc := Exec(w, steps).threads[t]; WasDue(w, steps, pc.purpose, pc.binding, |Exec(w, steps).log|)
  {
    hide Exec, WasDue, MayIssue;
    var s, s' := Exec(w, steps[..|steps| - 1]), Exec(w, steps);
    var pc := s'.threads[t];
    if t in s.threads && s.threads[t] == pc {
      DueLater(w, steps, pc.purpose, pc.binding, |s.log|, |s'.log|);
    } else {
      DueNow(w, steps, pc.purpose, pc.binding);
    }
  }

  lemma IssuedDue(w: World, steps: seq<Step>, i: nat)
    requires steps != [] && AllDue(w, steps[..|steps| - 1])
    requires Mindful(Exec(w, steps[..|steps| - 1]), Exec(w, steps))
    requires i < |Exec(w, steps).log| && Exec(w, steps).log[i].Issued?
    ensures EntryDue(w, steps, i)
  {
    hide Exec, WasDue, ThreadsMindful, StoredPurpose;
    var front := steps[..|steps| - 1];
    var s, s' := Exec(w, front), Exec(w, steps);
    var e := s'.log[i];
    if i < |s.log| {
      assert s.log[i] == e && EntryDue(w, front, i);
      var p :| e.stored == StoredPurpose(p) && WasDue(w, front, p, e.binding, i);
      DueLater(w, steps, p, e.binding, i, i);
    } else {
      var t :| IssuedBy(s, t, e.stored, e.binding);
      DueLater(w, steps, s.threads[t].purpose, e.binding, |s.log|, i);
    }
  }

  lemma {:induction false} ExecDue(w: World, steps: seq<Step>)
    ensures AllDue(w, steps)
  {
    if steps != [] {
      var front := steps[..|steps| - 1];
      ExecDue(w, front);
      StepMindful(w, Exec(w, front), steps[|steps| - 1]);
      assert Mindful(Exec(w, front), Exec(w, steps));
      hide *;
      AllDueNext(w, steps);
    }
  }

  lemma AllDueNext(w: World, steps: seq<Step>)
    requires steps != [] && AllDue(w, steps[..|steps| - 1])
    requires Mindful(Exec(w, steps[..|steps| - 1]), Exec(w, steps))
    ensures AllDue(w, steps)
  {
    hide Exec, WasDue, EntryDue, Mindful;
    var s := Exec(w, steps);
    forall t | t in s.threads && s.threads[t].Issuing?
      ensures WasDue(w, steps, s.threads[t].purpose, s.threads[t].binding, |s.log|)
    {
      ThreadDue(w, steps, t);
    }
    forall i | 0 <= i < |s.log| && s.log[i].Issued? ensures EntryDue(w, steps, i) { IssuedDue(w, steps, i); }
  }

  /**
   * A challenge to decide a transaction was issued only after a moment at which the transaction was pending and
   * unexpired and the binding its own citizen's, active and logged in; one to log in only after a moment at which the
   * binding was active.
   */
  lemma ChallengesWereDue(w: World, steps: seq<Step>, i: nat, binding: Id, p: Purpose)
    requires i < |Exec(w, steps).log| && Exec(w, steps).log[i].Issued?
    requires Exec(w, steps).log[i].stored == StoredPurpose(p) && Exec(w, steps).log[i].binding == binding
    ensures p.IsCiba() ==> WasDue(w, steps, CibaApprove(p.authReqId), binding, i)
    ensures p.Login? || p.Activation? ==> WasDue(w, steps, p, binding, i)
  {
    hide Exec, WasDue, StoredPurpose;
    ExecDue(w, steps);
    assert EntryDue(w, steps, i);
    var q :| StoredPurpose(p) == StoredPurpose(q) && WasDue(w, steps, q, binding, i);
    StoredPurposeInjective(p, q);
    DueKinds(w, steps, q, binding, i);
  }

  lemma DueKinds(w: World, steps: seq<Step>, q: Purpose, binding: Id, i: int)
    requires WasDue(w, steps, q, binding, i)
    ensures !q.CibaDeny? && !q.Attestation?
  {
    hide Exec;
    var j: nat :| DueAt(w, steps, j, q, binding, i);
  }
}
