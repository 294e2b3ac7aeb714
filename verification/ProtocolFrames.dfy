/** What the steps of the protocol leave alone. */
module ProtocolFrames {
  import opened Common
  import opened Challenge
  import opened Protocol

  /** A thread that carries no PKCE stash, no unused session and no verdict of expiry. */
  predicate PlainPc(pc: Pc) {
    match pc
    case Handling(stage, _, _, _, _, _, _) => stage != ReadTxn
    case Stashing(_, _) => false
    case Expiring(_) => false
    case PollBind(_, _, _, _) => false
    case PollCas(_, _, _, _) => false
    case PollInsert(_, _, _, _, _) => false
    case _ => true
  }

  /**
   * The step wrote no transaction, stash, code or session, moved only thread `t`, and read no transaction to decide it.
   */
  ghost predicate Plain(s: State, s': State, t: Thread) {
    && s'.txns == s.txns && s'.stashes == s.stashes && s'.codes == s.codes && s'.sessions == s.sessions
    && s.clock <= s'.clock
    && (forall u | u in s'.threads && u != t :: u in s.threads && s'.threads[u] == s.threads[u])
    && (t in s'.threads ==> PlainPc(s'.threads[t]) || (t in s.threads && s'.threads[t] == s.threads[t]))
    && s.log <= s'.log && (forall i | |s.log| <= i < |s'.log| :: !s'.log[i].TxnRead?)
  }

  predicate PlainRequest(step: RequestStep) {
    !step.CreateStep? && !step.PutStashStep? && !step.DropStashStep?
  }

  /** The thread a step belongs to. */
  function RequestThread(step: RequestStep): Thread {
    match step
    case CreateStep(t, _, _) => t
    case PutStashStep(t) => t
    case EnrolStep(t, _, _) => t
    case ListPendingStep(t, _, _, _) => t
    case LoginChallengeStep(t, _) => t
    case IssueStep(t, _, _) => t
    case _ => 0
  }

  /** `s1` differs from `s` only in the clock, bindings, suspensions, challenges and spent names. */
  predicate SameTables(s: State, s1: State) {
    && s1.txns == s.txns && s1.stashes == s.stashes && s1.codes == s.codes && s1.sessions == s.sessions
    && s1.threads == s.threads && s1.log == s.log && s.clock <= s1.clock
  }

  /** The ways a step ends, all of them plain. */
  lemma Endings(s: State, t: Thread)
    ensures forall s1 | SameTables(s, s1) :: Plain(s, s1, t)
    ensures forall s1 | SameTables(s, s1) :: Plain(s, Stop(s1, t), t)
    ensures forall s1, pc | SameTables(s, s1) && PlainPc(pc) :: Plain(s, Goto(s1, t, pc), t)
    ensures forall s1, e: Event | SameTables(s, s1) && !e.TxnRead? :: Plain(s, Note(s1, e), t)
    ensures forall s1, e: Event, next: Option<Pc>
              | SameTables(s, s1) && !e.TxnRead? && (next.Some? ==> PlainPc(next.value)) ::
              Plain(s, Record(s1, t, e, next), t)
  {
  }

  lemma RequestPlain(w: World, s: State, step: RequestStep)
    requires PlainRequest(step)
    ensures Plain(s, ApplyRequest(w, s, step), RequestThread(step))
  {
    hide Plain, Stop, Goto, Note, Record, StoredPurpose, BuildChallengePayload, Guard, SweepWrites;
    Endings(s, RequestThread(step));
    if step.SweepStep? { SweepPlain(s, step.citizen, step.write); }
  }

  lemma SweepPlain(s: State, citizen: Id, write: SweepWrite)
    ensures Plain(s, SweepWrites(s, citizen, write), 0)
  {
    hide Plain, Note, Touch, RevokeActive;
    Endings(s, 0);
  }

  predicate PlainHandler(step: HandlerStep) { !step.StartDecisionStep? && !step.ReadTxnStep? && !step.FinishStep? }

  /** The steps of a handler's talk with SDID. */
  predicate SdidTalk(step: HandlerStep) {
    step.CheckDueStep? || step.ReadCitizenStep? || step.SdidAnswerStep? || step.SdidWriteStep? || step.SdidRevokeStep?
  }

  lemma SdidPlain(w: World, s: State, step: HandlerStep)
    requires SdidTalk(step)
    ensures Plain(s, ApplyHandler(w, s, step), step.t)
  {
    hide Plain, Stop, Goto, Note, Record, Forced, ReassertWrites, ReassertRevokes;
    Endings(s, step.t);
    if step.SdidWriteStep? || step.SdidRevokeStep? { SdidWritesPlain(s, step.t); }
  }

  lemma SdidWritesPlain(s: State, t: Thread)
    ensures Plain(s, ReassertWrites(s, t), t) && Plain(s, ReassertRevokes(s, t), t)
  {
    hide Plain, Stop, Goto, Note, Record, Touch, RevokeActive;
    Endings(s, t);
  }

  lemma HandlerPlain(w: World, s: State, step: HandlerStep)
    requires PlainHandler(step)
    ensures Plain(s, ApplyHandler(w, s, step), step.t)
  {
    hide Plain, Stop, Goto, Note, Record, StoredPurpose, BuildChallengePayload, AlMeets, HandlerChecksDue,
      ReassertReadsCitizen, SdidAnswers, ReassertWrites, ReassertRevokes;
    Endings(s, step.t);
    if SdidTalk(step) { SdidPlain(w, s, step); }
  }

  predicate PlainEndpoint(step: EndpointStep) {
    || step.CibaBindStep? || step.PollReadStep? || step.CodeReadStep? || step.MintStep? || step.AbortStep?
  }

  lemma EndpointPlain(w: World, s: State, step: EndpointStep)
    requires PlainEndpoint(step)
    ensures Plain(s, ApplyEndpoint(w, s, step), step.t)
  {
    hide Plain, Stop, Goto, Note, Record, GrantOf, Redeem;
    Endings(s, step.t);
  }

  predicate SameRows(s: State, s': State) {
    && s'.txns == s.txns && s'.stashes == s.stashes && s'.codes == s.codes && s'.sessions == s.sessions
    && s'.clock == s.clock
  }

  /** Moving a thread and writing an entry leave every table alone. */
  lemma Tables(t: Thread)
    ensures forall s: State ::
        SameRows(s, Stop(s, t)) && Stop(s, t).log == s.log && Stop(s, t).threads == s.threads - {t}
    ensures forall s: State, pc ::
              SameRows(s, Goto(s, t, pc)) && Goto(s, t, pc).log == s.log && Goto(s, t, pc).threads == s.threads[t := pc]
    ensures forall s: State, e ::
              && SameRows(s, Record(s, t, e, None)) && Record(s, t, e, None).log == s.log + [e]
              && Record(s, t, e, None).threads == s.threads - {t}
    ensures forall s: State, e, pc ::
              && SameRows(s, Record(s, t, e, Some(pc))) && Record(s, t, e, Some(pc)).log == s.log + [e]
              && Record(s, t, e, Some(pc)).threads == s.threads[t := pc]
  {
  }

  /**
   * What surrounds the broker is free: time passes by any amount, stashes and challenges may vanish, a client signs
   * whatever it is shown for a decision, a login or an activation, and whoever holds another key signs anything.
   */
  lemma OutsideIsFree(w: World, s: State, n: nat, id: Id, key: Key, payload: string, act: Act)
    ensures ApplyRequest(w, s, TickStep(n)) == s.(clock := s.clock + n)
    ensures ApplyRequest(w, s, DropStashStep(id)) == s.(stashes := s.stashes - {id})
    ensures ApplyRequest(w, s, DropChallengeStep(id)) == s.(challenges := s.challenges - {id})
    ensures key !in w.honest ==>
        ApplyRequest(w, s, OtherSignStep(key, payload)) == s.(log := s.log + [Signed(key, payload, None)])
    ensures !act.purpose.Attestation? ==>
        var said := BuildChallengePayload(act.purpose, act.challenge, act.nonce);
        ApplyRequest(w, s, ClientSignStep(key, act)) == s.(log := s.log + [Signed(key, said, Some(act))])
  {
    hide BuildChallengePayload;
  }
}
