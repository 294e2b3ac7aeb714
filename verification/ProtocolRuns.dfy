/**
 * What the log entries of a run say is true of the states the run went through: each entry was written by one step,
 * and records the rows as they were immediately before that step and as it left them.
 */
module ProtocolRuns {
  import opened Common
  import opened Challenge
  import opened Protocol
  import opened ProtocolInvariant
  import opened ProtocolPreserved

  /** Entry `e`, written by a step from `s` to `s'`, agrees with the rows before and after. */
  ghost predicate Witnessed(s: State, s': State, e: Event) {
    match e
    case Issued(stored, challenge, nonce, binding) =>
      challenge !in s.used && challenge in s'.challenges && s'.challenges[challenge].nonce == nonce
    case TxnRead(req, start, _, row) =>
      req.purpose.IsCiba() && req.purpose.authReqId in s.txns && s.txns[req.purpose.authReqId] == row
    case BindRead(req, _, found) => req.binding in s.bindings && s.bindings[req.binding] == found
    case Fresh(req, _, _, contact) =>
      (contact.Cadence? ==> contact.now == s.clock)
      && (contact.Answered? ==> exists t :: t in s.threads && Answers(s.threads[t], req, contact.now))
    case Taken(req, _, _, record) =>
      req.challenge in s.challenges && s.challenges[req.challenge] == record && req.challenge !in s'.challenges
    case Finished(req, _, bind, when) => when == s.clock && WitnessedEffect(s, s', req, bind)
    case Redeemed(txn, _, _) =>
      txn in s.txns && s.txns[txn].status == Approved && txn in s'.txns && s'.txns[txn].status == Consumed
    case CodeIssued(code, _, issued) => code !in s.codes && code in s'.codes && s'.codes[code] == issued
    case CodeRedeemed(code, _, _, _) =>
      code in s.codes && !s.codes[code].consumed && code in s'.codes && s'.codes[code].consumed
    case _ => true
  }

  /** The thread that just got a valid answer from SDID for this request. */
  predicate Answers(pc: Pc, req: Req, now: nat) {
    pc.Handling? && pc.req == req && pc.stage.WriteSdid? && pc.stage.valid && pc.stage.now == now
  }

  ghost predicate WitnessedEffect(s: State, s': State, req: Req, bind: nat) {
    match req.purpose
    case CibaApprove(id) => CasWon(s, s', id, Approved, req.binding)
    case CibaDeny(id) => CasWon(s, s', id, Denied, req.binding)
    case Activation => req.binding in s'.bindings && s'.bindings[req.binding].status == Active
    case Login =>
      bind < |s.log| && s.log[bind].BindRead? && (s.log[bind].found.fixed.citizen, req.binding) in s'.sessions
    case Attestation => false
  }

  /** The compare-and-set found the row pending and set it. */
  ghost predicate CasWon(s: State, s': State, id: Id, status: TxnStatus, binding: Id) {
    && id in s.txns && s.txns[id].status == Pending
    && id in s'.txns && s'.txns[id].status == status && s'.txns[id].binding == Some(binding)
  }

  /** A step writes at most one entry, and what it writes is so. */
  ghost predicate Tells(s: State, s': State) {
    s'.log == s.log || (|s'.log| == |s.log| + 1 && s.log <= s'.log && Witnessed(s, s', s'.log[|s.log|]))
  }

  lemma IssueTells(s: State, t: Thread, id: Id, nonce: string)
    ensures Tells(s, Issue(s, t, id, nonce))
  {
    hide StoredPurpose;
  }

  lemma RequestTells(w: World, s: State, step: RequestStep)
    ensures Tells(s, ApplyRequest(w, s, step))
  {
    hide Issue, BuildChallengePayload, SweepWrites;
    if step.IssueStep? { IssueTells(s, step.t, step.id, step.nonce); }
    if step.SweepStep? { SweepTells(s, step.citizen, step.write); }
  }

  lemma SweepTells(s: State, citizen: Id, write: SweepWrite)
    ensures Tells(s, SweepWrites(s, citizen, write))
  {
    hide Touch, RevokeActive;
  }

  lemma TakeTells(s: State, t: Thread)
    ensures Tells(s, HandlerTakes(s, t))
  {
  }

  /** Appending one true entry tells the truth, whatever else the step wrote. */
  lemma RecordTells(s: State, s1: State, t: Thread, e: Event)
    requires s1.log == s.log && Witnessed(s, Record(s1, t, e, None), e)
    ensures Tells(s, Record(s1, t, e, None))
  {
    hide Witnessed;
  }

  lemma DecideTells(s: State, t: Thread, pc: Pc, id: Id, status: TxnStatus)
    requires pc.Handling? && pc.bind >= 0
    requires pc.req.purpose == (if status == Approved then CibaApprove(id) else CibaDeny(id))
    requires status in {Approved, Denied}
    ensures Tells(s, Decide(s, t, pc, id, status))
  {
    hide Tells;
    if id in s.txns && s.txns[id].status == Pending {
      var row := s.txns[id].(status := status, binding := Some(pc.req.binding), resolvedAt := Some(pc.start));
      var approvals := if status == Approved then s.approvals[id := |s.log|] else s.approvals;
      RecordTells(s, s.(txns := s.txns[id := row], approvals := approvals), t,
          Finished(pc.req, pc.at, pc.bind, s.clock));
    } else {
      SameLogTells(s, Stop(s, t));
    }
  }

  lemma ActivateTells(s: State, t: Thread, pc: Pc)
    requires pc.Handling? && pc.bind >= 0 && pc.req.purpose == Activation
    ensures Tells(s, Activate(s, t, pc))
  {
  }

  lemma MintSessionTells(s: State, t: Thread, pc: Pc)
    requires pc.Handling? && IsBindRead(s, pc.bind) && pc.req.purpose == Login
    ensures Tells(s, MintSession(s, t, pc))
  {
  }

  lemma FinishTells(s: State, t: Thread)
    ensures Tells(s, HandlerFinishes(s, t))
  {
    hide Tells, Decide, Activate, MintSession;
    SameLogTells(s, s);
    if t in s.threads && s.threads[t].Handling? && s.threads[t].stage == Finish && IsBindRead(s, s.threads[t].bind) {
      match s.threads[t].req.purpose
      case CibaApprove(id) => DecideTells(s, t, s.threads[t], id, Approved);
      case CibaDeny(id) => DecideTells(s, t, s.threads[t], id, Denied);
      case Activation => ActivateTells(s, t, s.threads[t]);
      case Login => MintSessionTells(s, t, s.threads[t]);
      case Attestation =>
    }
  }

  lemma SdidWriteTells(s: State, t: Thread)
    ensures Tells(s, ReassertWrites(s, t))
  {
    if t in s.threads && s.threads[t].Handling? && s.threads[t].stage.WriteSdid? && s.threads[t].stage.valid {
      assert Answers(s.threads[t], s.threads[t].req, s.threads[t].stage.now);
    }
  }

  lemma ReadTxnTells(s: State, t: Thread)
    ensures Tells(s, DecisionReadsTxn(s, t))
  {
  }

  lemma ReadBindingTells(s: State, t: Thread)
    ensures Tells(s, HandlerReadsBinding(s, t))
  {
  }

  lemma CheckDueTells(w: World, s: State, t: Thread)
    ensures Tells(s, HandlerChecksDue(w, s, t))
  {
  }

  lemma VerifyTells(s: State, t: Thread, signature: nat)
    ensures Tells(s, HandlerVerifies(s, t, signature))
  {
  }

  lemma SameLogTells(s: State, s': State)
    requires s'.log == s.log
    ensures Tells(s, s')
  {
    hide Witnessed;
  }

  lemma HandlerTells(w: World, s: State, step: HandlerStep)
    ensures Tells(s, ApplyHandler(w, s, step))
  {
    hide Tells, HandlerTakes, HandlerFinishes, ReassertWrites, DecisionReadsTxn, HandlerReadsBinding, HandlerChecksDue,
      HandlerVerifies;
    match step
    case TakeStep(t) => TakeTells(s, t);
    case FinishStep(t) => FinishTells(s, t);
    case SdidWriteStep(t) => SdidWriteTells(s, t);
    case ReadTxnStep(t) => ReadTxnTells(s, t);
    case ReadBindingStep(t) => ReadBindingTells(s, t);
    case CheckDueStep(t) => CheckDueTells(w, s, t);
    case VerifyStep(t, signature) => VerifyTells(s, t, signature);
    case StartDecisionStep(t, citizen, session, req) => SameLogTells(s, StartDecision(s, t, citizen, session, req));
    case StartHandlerStep(t, req) => SameLogTells(s, StartHandler(s, t, req));
    case ReadCitizenStep(t) => SameLogTells(s, ReassertReadsCitizen(s, t));
    case SdidAnswerStep(t, valid) => SameLogTells(s, SdidAnswers(s, t, valid));
    case SdidRevokeStep(t) => SameLogTells(s, ReassertRevokes(s, t));
  }

  lemma RedeemTells(s: State, t: Thread, id: Id, grant: Grant, next: Pc)
    ensures Tells(s, Redeem(s, t, id, grant, next))
  {
  }

  lemma PollInsertTells(w: World, s: State, t: Thread, code: Id)
    requires Inv(w, s)
    ensures Tells(s, PollInserts(s, t, code))
  {
    hide Inv, Witnessed;
    if t in s.threads && s.threads[t].PollInsert? && code !in s.used {
      assert code !in s.codes by { if code in s.codes { InvCode(w, s, code); } }
      InsertTells(s, t, code);
    }
  }

  lemma InsertTells(s: State, t: Thread, code: Id)
    requires t in s.threads && s.threads[t].PollInsert? && code !in s.codes
    ensures Tells(s, PollInserts(s, t, code))
  {
  }

  lemma CodeConsumeTells(s: State, t: Thread)
    ensures Tells(s, CodeGrantConsumes(s, t))
  {
  }

  lemma MintTells(s: State, t: Thread)
    ensures Tells(s, Mints(s, t))
  {
  }

  lemma ConsumeTells(s: State, t: Thread)
    ensures Tells(s, CibaGrantConsumes(s, t)) && Tells(s, PollConsumes(s, t))
  {
    hide Redeem, Tells;
    SameLogTells(s, s);
    if t in s.threads && s.threads[t].CibaCas? {
      var CibaCas(id, _, grant, rp) := s.threads[t];
      RedeemTells(s, t, id, grant, Mint(id, grant, None, |s.log|, rp));
    }
    if t in s.threads && s.threads[t].PollCas? {
      var PollCas(id, grant, stash, expiresAt) := s.threads[t];
      RedeemTells(s, t, id, grant, PollInsert(id, grant, stash, expiresAt, |s.log|));
    }
  }

  lemma EndpointTells(w: World, s: State, step: EndpointStep)
    requires Inv(w, s)
    ensures Tells(s, ApplyEndpoint(w, s, step))
  {
    hide Inv, Tells, CibaGrantConsumes, PollConsumes, PollInserts, CodeGrantConsumes, Mints;
    match step
    case CibaConsumeStep(t) => ConsumeTells(s, t);
    case PollConsumeStep(t) => ConsumeTells(s, t);
    case PollInsertStep(t, id) => PollInsertTells(w, s, t, id);
    case CodeConsumeStep(t) => CodeConsumeTells(s, t);
    case MintStep(t) => MintTells(s, t);
    case _ => SameLogTells(s, ApplyEndpoint(w, s, step));
  }

  lemma StepTells(w: World, s: State, step: Step)
    requires Inv(w, s)
    ensures Tells(s, Apply(w, s, step))
  {
    hide Inv, ApplyRequest, ApplyHandler, ApplyEndpoint, Tells;
    match step
    case Around(st) => RequestTells(w, s, st);
    case Handle(st) => HandlerTells(w, s, st);
    case Endpoint(st) => EndpointTells(w, s, st);
  }

  // ----------------------------------------------------------- along a whole run

  lemma ExecStep(w: World, steps: seq<Step>, k: nat)
    requires k < |steps|
    ensures Exec(w, steps[..k + 1]) == Apply(w, Exec(w, steps[..k]), steps[k])
  {
    hide Apply;
    assert steps[..k + 1][..k] == steps[..k];
  }

  /** The log only grows along a run. */
  lemma {:induction false} LogGrows(w: World, steps: seq<Step>, k: nat)
    requires k <= |steps|
    ensures Exec(w, steps[..k]).log <= Exec(w, steps).log
    decreases |steps| - k
  {
    hide Apply, Exec;
    if k == |steps| {
      assert steps[..k] == steps;
    } else {
      ExecInv(w, steps[..k]);
      ExecStep(w, steps, k);
      StepTells(w, Exec(w, steps[..k]), steps[k]);
      LogGrows(w, steps, k + 1);
    }
  }

  /** Entry `i` was written by step `k`. */
  ghost predicate WrittenBy(w: World, steps: seq<Step>, i: nat, k: nat) {
    && i < |Exec(w, steps).log| && k < |steps|
    && |Exec(w, steps[..k]).log| == i < |Exec(w, steps[..k + 1]).log|
    && Witnessed(Exec(w, steps[..k]), Exec(w, steps[..k + 1]), Exec(w, steps).log[i])
  }

  /** The entry is the truth about the run. */
  ghost predicate Happened(w: World, steps: seq<Step>, i: nat) { exists k :: WrittenBy(w, steps, i, k) }

  /** Every entry of every run is true of the run. */
  lemma {:induction false} LogIsTrue(w: World, steps: seq<Step>, i: nat)
    requires i < |Exec(w, steps).log|
    ensures Happened(w, steps, i)
  {
    hide Apply, Witnessed, Inv;
    var k := FirstLonger(w, steps, i);
    ExecInv(w, steps[..k]);
    ExecStep(w, steps, k);
    StepTells(w, Exec(w, steps[..k]), steps[k]);
    LogGrows(w, steps, k + 1);
    assert WrittenBy(w, steps, i, k);
  }

  /** The step that made the log longer than `i`. */
  lemma FirstLonger(w: World, steps: seq<Step>, i: nat) returns (k: nat)
    requires i < |Exec(w, steps).log|
    ensures k < |steps| && |Exec(w, steps[..k]).log| <= i < |Exec(w, steps[..k + 1]).log|
  {
    hide Apply;
    assert steps[..|steps|] == steps;
    k := |steps|;
    while k > 0 && i < |Exec(w, steps[..k - 1]).log|
      invariant k <= |steps| && i < |Exec(w, steps[..k]).log|
    {
      k := k - 1;
    }
    k := k - 1;
  }
}
