/**
 * The honest path: from any state, an undisturbed client that logs in, is asked, signs and is approved gets through
 * every check of every handler, and ends with the session and the token it is due. The partner of the safety theorems.
 */
module ProtocolProgress {
  import opened Common
  import opened Challenge
  import opened Protocol

  /** One citizen's phone, one free thread of the broker, and the names the broker will draw. */
  datatype Visit = Visit(t: Thread, binding: Id, found: Binding, challenge: Id, nonce: string)

  function Reqs(v: Visit, p: Purpose): Req { Req(p, v.binding, v.challenge) }

  /** The binding is as expected and the thread is free. */
  predicate Ready(s: State, v: Visit) {
    v.t !in s.threads && v.binding in s.bindings && s.bindings[v.binding] == v.found
  }

  predicate Set(s: State, v: Visit) {
    && Ready(s, v) && v.challenge !in s.used && ColonFree(v.challenge) && ColonFree(v.nonce)
  }

  // --------------------------------------------------------------- continuations

  /** The state after taking `steps` from `s`. */
  function Play(w: World, s: State, steps: seq<Step>): State {
    if steps == [] then s else Apply(w, Play(w, s, steps[..|steps| - 1]), steps[|steps| - 1])
  }

  ghost predicate Reaches(w: World, s: State, s': State) { exists steps :: Play(w, s, steps) == s' }

  lemma Stays(w: World, s: State)
    ensures Reaches(w, s, s)
  {
    assert Play(w, s, []) == s;
  }

  lemma Then(w: World, s: State, s': State, step: Step)
    requires Reaches(w, s, s')
    ensures Reaches(w, s, Apply(w, s', step))
  {
    var steps :| Play(w, s, steps) == s';
    var more := steps + [step];
    assert more[..|more| - 1] == steps;
    assert Play(w, s, more) == Apply(w, s', step);
  }

  lemma ThenAround(w: World, s: State, s': State, step: RequestStep)
    requires Reaches(w, s, s')
    ensures Reaches(w, s, ApplyRequest(w, s', step))
  {
    hide Reaches, ApplyRequest;
    Then(w, s, s', Around(step));
  }

  lemma ThenHandle(w: World, s: State, s': State, step: HandlerStep)
    requires Reaches(w, s, s')
    ensures Reaches(w, s, ApplyHandler(w, s', step))
  {
    hide Reaches, ApplyHandler;
    Then(w, s, s', Handle(step));
  }

  lemma ThenServe(w: World, s: State, s': State, step: EndpointStep)
    requires Reaches(w, s, s')
    ensures Reaches(w, s, ApplyEndpoint(w, s', step))
  {
    hide Reaches, ApplyEndpoint;
    Then(w, s, s', Endpoint(step));
  }

  lemma {:induction false} Joins(w: World, s: State, s1: State, steps: seq<Step>)
    requires Reaches(w, s, s1)
    ensures Reaches(w, s, Play(w, s1, steps))
    decreases |steps|
  {
    if steps != [] {
      Joins(w, s, s1, steps[..|steps| - 1]);
      Then(w, s, Play(w, s1, steps[..|steps| - 1]), steps[|steps| - 1]);
    }
  }

  lemma Follows(w: World, s: State, s1: State, s2: State)
    requires Reaches(w, s, s1) && Reaches(w, s1, s2)
    ensures Reaches(w, s, s2)
  {
    var steps :| Play(w, s1, steps) == s2;
    Joins(w, s, s1, steps);
  }

  /** A continuation of a run is a run. */
  lemma {:induction false} Continues(w: World, run: seq<Step>, steps: seq<Step>)
    ensures Exec(w, run + steps) == Play(w, Exec(w, run), steps)
    decreases |steps|
  {
    hide Apply;
    var all := run + steps;
    if steps == [] {
      assert all == run;
    } else {
      assert all != [] && all[|all| - 1] == steps[|steps| - 1];
      assert all[..|all| - 1] == run + steps[..|steps| - 1];
      Continues(w, run, steps[..|steps| - 1]);
    }
  }

  /** Whether the handler contacts SDID. */
  predicate Asks(w: World, now: nat, b: Binding, forced: bool) {
    forced || now - LastSdidContact(b) >= w.reverifyInterval
  }

  /** The bindings once that contact, if any, was answered well. */
  function Renewed(w: World, s: State, b: Binding, forced: bool): map<Id, Binding> {
    if Asks(w, s.clock, b, forced) then Touch(s.bindings, b.fixed.citizen, s.clock) else s.bindings
  }

  /** SDID is not asked, or answers well and the citizen is not suspended. */
  predicate Passable(w: World, s: State, b: Binding, forced: bool) {
    Asks(w, s.clock, b, forced) ==> b.fixed.citizen !in s.suspended
  }

  /** Tables that the signed part of a request leaves alone. */
  predicate Kept(s: State, s': State) {
    && s'.clock == s.clock && s'.txns == s.txns && s'.stashes == s.stashes && s'.codes == s.codes
    && s'.bindings == s.bindings && s'.suspended == s.suspended && s'.sessions == s.sessions
    && s.log <= s'.log
  }

  // -------------------------------------------------- a challenge, and its signature

  /** The challenge is out and its payload signed: entry `|s.log|` of `s` issued it, the next one signed it. */
  predicate Prepared(s: State, s': State, v: Visit, p: Purpose) {
    && Kept(s, s') && s'.threads == s.threads && |s'.log| == |s.log| + 2 && s'.used == s.used + {v.challenge}
    && v.challenge in s'.challenges
    && s'.challenges[v.challenge] == ChallengeRow(StoredPurpose(p), v.nonce, v.binding, |s.log|)
    && s'.log[|s.log| + 1].Signed? && s'.log[|s.log| + 1].key == v.found.fixed.key
    && s'.log[|s.log| + 1].payload == BuildChallengePayload(p, v.challenge, v.nonce)
  }

  function Prepare(s: State, v: Visit, p: Purpose): State {
    ClientSign(Issue(s, v.t, v.challenge, v.nonce), v.found.fixed.key, Act(p, v.challenge, v.nonce))
  }

  lemma Prepares(s: State, v: Visit, stored: Purpose, p: Purpose)
    requires Set(s, v) && StoredPurpose(stored) == StoredPurpose(p) && !p.Attestation?
    ensures Prepared(s, Prepare(Goto(s, v.t, Issuing(stored, v.binding)), v, p), v, p)
  {
    hide StoredPurpose, BuildChallengePayload;
  }

  // ----------------------------------------------------- the steps of a signed request

  /** Thread `t` stands at `stage` of its request for `p`. */
  predicate StandsAt(s: State, v: Visit, p: Purpose, stage: Stage, pc: Pc) {
    && pc.Handling? && v.t in s.threads && s.threads[v.t] == pc && pc.stage == stage && pc.req == Reqs(v, p)
  }

  predicate HasBind(s: State, v: Visit, pc: Pc) {
    pc.Handling? && IsBindRead(s, pc.bind) && s.log[pc.bind].found == v.found
  }

  /**
   * From `s` to `s'` only thread `t` moved, to `stage` of the request it began at `start`, with the binding it read.
   */
  predicate Moved(s: State, s': State, v: Visit, p: Purpose, stage: Stage, start: nat) {
    && v.t in s'.threads && s'.threads == s.threads[v.t := s'.threads[v.t]]
    && StandsAt(s', v, p, stage, s'.threads[v.t]) && HasBind(s', v, s'.threads[v.t]) && s'.threads[v.t].start == start
  }

  predicate Same(s: State, s': State) { Kept(s, s') && s'.challenges == s.challenges && s'.used == s.used }

  lemma ReadsBinding(s: State, v: Visit, p: Purpose, pc: Pc)
    requires StandsAt(s, v, p, ReadBinding, pc) && v.binding in s.bindings && s.bindings[v.binding] == v.found
    requires v.found.status == (if p.Activation? then Waiting else Active)
    requires p.IsCiba() ==> IsTxnRead(s, pc.at) && Suffices(v.found.fixed.assurance, s.log[pc.at].row.fixed.requestedAl)
    ensures var s' := HandlerReadsBinding(s, v.t);
      Same(s, s') && Moved(s, s', v, p, AfterBinding(p), pc.start) && s'.log[s'.threads[v.t].bind].prev == pc.at
  {
  }

  lemma ChecksDue(w: World, s: State, v: Visit, p: Purpose, pc: Pc)
    requires StandsAt(s, v, p, CheckDue, pc) && HasBind(s, v, pc) && !Asks(w, s.clock, v.found, Forced(s, pc))
    ensures var s' := HandlerChecksDue(w, s, v.t);
      Same(s, s') && Moved(s, s', v, p, AfterFresh(p), pc.start)
  {
  }

  lemma Takes(s: State, v: Visit, p: Purpose, pc: Pc)
    requires StandsAt(s, v, p, Take, pc) && HasBind(s, v, pc) && v.challenge in s.challenges
    requires s.challenges[v.challenge].purpose == StoredPurpose(p) && s.challenges[v.challenge].binding == v.binding
    ensures var s' := HandlerTakes(s, v.t);
      && Kept(s, s') && s'.used == s.used && StandsAt(s', v, p, Verify, s'.threads[v.t])
      && HasBind(s', v, s'.threads[v.t])
      && s'.threads[v.t].start == pc.start && s'.threads[v.t].at == |s.log| && |s'.log| == |s.log| + 1
      && s'.log[|s.log|].Taken? && s'.log[|s.log|].record == s.challenges[v.challenge]
      && s'.threads == s.threads[v.t := s'.threads[v.t]]
  {
    hide StoredPurpose;
  }

  lemma Verifies(s: State, v: Visit, p: Purpose, pc: Pc, signature: nat)
    requires StandsAt(s, v, p, Verify, pc) && HasBind(s, v, pc)
    requires 0 <= pc.at < |s.log| && s.log[pc.at].Taken? && s.log[pc.at].record.nonce == v.nonce
    requires signature < |s.log| && s.log[signature].Signed? && s.log[signature].key == v.found.fixed.key
    requires s.log[signature].payload == BuildChallengePayload(p, v.challenge, v.nonce)
    ensures var s' := HandlerVerifies(s, v.t, signature);
      && Same(s, s') && StandsAt(s', v, p, AfterVerify(p), s'.threads[v.t]) && HasBind(s', v, s'.threads[v.t])
      && s'.threads[v.t].start == pc.start && s'.threads == s.threads[v.t := s'.threads[v.t]]
  {
    hide BuildChallengePayload;
  }

  // ------------------------------------------------------------- contacting SDID

  /** Every table but the bindings is as it was. */
  predicate SameButBindings(s: State, s': State) { Same(s, s'.(bindings := s.bindings)) }

  function Asking(s: State, v: Visit, pc: Pc): State
    requires pc.Handling?
  {
    Goto(s, v.t, pc.(stage := WriteSdid(s.clock, true)))
  }

  lemma AsksSdid(w: World, s0: State, s: State, v: Visit, p: Purpose, pc: Pc)
    requires StandsAt(s, v, p, CheckDue, pc) && HasBind(s, v, pc) && Reaches(w, s0, s)
    requires Asks(w, s.clock, v.found, Forced(s, pc)) && v.found.fixed.citizen !in s.suspended
    ensures Reaches(w, s0, Asking(s, v, pc))
  {
    hide Reaches;
    ThenHandle(w, s0, s, CheckDueStep(v.t));
    var s1 := Goto(s, v.t, pc.(stage := ReadCitizen(s.clock)));
    assert HandlerChecksDue(w, s, v.t) == s1;
    ThenHandle(w, s0, s1, ReadCitizenStep(v.t));
    var s2 := Goto(s, v.t, pc.(stage := AskSdid(s.clock)));
    assert ReassertReadsCitizen(s1, v.t) == s2;
    ThenHandle(w, s0, s2, SdidAnswerStep(v.t, true));
    assert SdidAnswers(s2, v.t, true) == Asking(s, v, pc);
  }

  lemma WritesSdid(s: State, v: Visit, p: Purpose, pc: Pc)
    requires StandsAt(s, v, p, CheckDue, pc) && HasBind(s, v, pc)
    ensures var s' := ReassertWrites(Asking(s, v, pc), v.t);
      && SameButBindings(s, s') && s'.bindings == Touch(s.bindings, v.found.fixed.citizen, s.clock)
      && StandsAt(s', v, p, AfterFresh(p), s'.threads[v.t]) && HasBind(s', v, s'.threads[v.t])
      && s'.threads[v.t].start == pc.start && s'.threads == s.threads[v.t := s'.threads[v.t]]
  {
    hide Touch;
  }

  predicate Refreshed(w: World, s: State, s': State, v: Visit, p: Purpose, pc: Pc)
    requires HasBind(s, v, pc)
  {
    && SameButBindings(s, s') && s'.bindings == Renewed(w, s, v.found, Forced(s, pc))
    && Moved(s, s', v, p, AfterFresh(p), pc.start)
  }

  /** The re-verification check, whichever way it goes. */
  lemma Refreshes(w: World, s0: State, s: State, v: Visit, p: Purpose, pc: Pc)
    requires StandsAt(s, v, p, CheckDue, pc) && HasBind(s, v, pc) && Reaches(w, s0, s)
    requires Passable(w, s, v.found, Forced(s, pc))
    ensures exists s' :: Reaches(w, s0, s') && Refreshed(w, s, s', v, p, pc)
  {
    hide Reaches, HandlerChecksDue, ReassertWrites, Touch, Forced;
    var s': State;
    if Asks(w, s.clock, v.found, Forced(s, pc)) {
      AsksSdid(w, s0, s, v, p, pc);
      WritesSdid(s, v, p, pc);
      ThenHandle(w, s0, Asking(s, v, pc), SdidWriteStep(v.t));
      s' := ReassertWrites(Asking(s, v, pc), v.t);
    } else {
      ChecksDue(w, s, v, p, pc);
      ThenHandle(w, s0, s, CheckDueStep(v.t));
      s' := HandlerChecksDue(w, s, v.t);
    }
    assert Reaches(w, s0, s') && Refreshed(w, s, s', v, p, pc);
  }

  // -------------------------------------------------------------- whole requests

  lemma IssuesAndSigns(w: World, s: State, v: Visit, stored: Purpose, p: Purpose)
    requires StoredPurpose(stored) == StoredPurpose(p) && !p.Attestation? && Set(s, v)
    ensures var s1 := Goto(s, v.t, Issuing(stored, v.binding));
      Reaches(w, s1, Prepare(s1, v, p)) && Prepared(s, Prepare(s1, v, p), v, p)
  {
    var s1 := Goto(s, v.t, Issuing(stored, v.binding));
    Prepares(s, v, stored, p);
    Stays(w, s1);
    ThenAround(w, s1, s1, IssueStep(v.t, v.challenge, v.nonce));
    ThenAround(w, s1, Issue(s1, v.t, v.challenge, v.nonce),
               ClientSignStep(v.found.fixed.key, Act(p, v.challenge, v.nonce)));
  }

  /** The challenge is stored for this use, and entry `signature` signed the payload it stands for. */
  predicate Held(s: State, v: Visit, p: Purpose, signature: nat) {
    && v.challenge in s.challenges && s.challenges[v.challenge].purpose == StoredPurpose(p)
    && s.challenges[v.challenge].binding == v.binding && s.challenges[v.challenge].nonce == v.nonce
    && signature < |s.log| && s.log[signature].Signed? && s.log[signature].key == v.found.fixed.key
    && s.log[signature].payload == BuildChallengePayload(p, v.challenge, v.nonce)
  }

  lemma HeldLater(s: State, s': State, v: Visit, p: Purpose, signature: nat)
    requires Held(s, v, p, signature) && s'.challenges == s.challenges && s.log <= s'.log
    ensures Held(s', v, p, signature)
  {
    hide BuildChallengePayload, StoredPurpose;
  }

  predicate Proven(s: State, s': State, v: Visit, p: Purpose, start: nat) {
    Kept(s, s') && s'.used == s.used && Moved(s, s', v, p, AfterVerify(p), start)
  }

  /** Consumption and verification, once the checks before them passed. */
  lemma TakesAndVerifies(w: World, s0: State, s: State, v: Visit, p: Purpose, pc: Pc, signature: nat)
    requires StandsAt(s, v, p, Take, pc) && HasBind(s, v, pc) && Reaches(w, s0, s)
    requires Held(s, v, p, signature)
    ensures exists s' :: Reaches(w, s0, s') && Proven(s, s', v, p, pc.start)
  {
    hide BuildChallengePayload, StoredPurpose, Reaches, HandlerTakes, HandlerVerifies;
    Takes(s, v, p, pc);
    ThenHandle(w, s0, s, TakeStep(v.t));
    var s1 := HandlerTakes(s, v.t);
    Verifies(s1, v, p, s1.threads[v.t], signature);
    ThenHandle(w, s0, s1, VerifyStep(v.t, signature));
    var s' := HandlerVerifies(s1, v.t, signature);
    assert Reaches(w, s0, s') && Proven(s, s', v, p, pc.start);
  }

  /** Everything but the named tables, threads and history is as it was; the run went on. */
  predicate Finishes(s: State, s': State, v: Visit) {
    && s'.clock == s.clock && s'.stashes == s.stashes && s'.codes == s.codes && s'.suspended == s.suspended
    && s'.threads == s.threads && s'.used == s.used + {v.challenge} && s.log <= s'.log
  }

  predicate CanDecide(s: State, v: Visit, citizen: Id, id: Id) {
    && Ready(s, v) && Guard(s, citizen, v.binding) && id in s.txns
    && s.txns[id].status == Pending && s.txns[id].fixed.citizen == citizen && s.txns[id].fixed.expiresAt > s.clock
    && Suffices(v.found.fixed.assurance, s.txns[id].fixed.requestedAl)
  }

  predicate Begun(s: State, s': State, v: Visit, p: Purpose) {
    && Same(s, s') && v.t in s'.threads && s'.threads == s.threads[v.t := s'.threads[v.t]]
    && StandsAt(s', v, p, ReadBinding, s'.threads[v.t]) && s'.threads[v.t].start == s.clock
    && p.IsCiba() && p.authReqId in s.txns
    && IsTxnRead(s', s'.threads[v.t].at) && s'.log[s'.threads[v.t].at].row == s.txns[p.authReqId]
  }

  /** The decision request up to its binding read. */
  lemma DecisionBegins(w: World, s: State, v: Visit, citizen: Id, p: Purpose)
    requires p.IsCiba() && CanDecide(s, v, citizen, p.authReqId)
    ensures exists s' :: Reaches(w, s, s') && Begun(s, s', v, p)
  {
    hide Reaches;
    Stays(w, s);
    var req := Reqs(v, p);
    ThenHandle(w, s, s, StartDecisionStep(v.t, citizen, v.binding, req));
    var s1 := StartDecision(s, v.t, citizen, v.binding, req);
    ThenHandle(w, s, s1, ReadTxnStep(v.t));
    var s' := DecisionReadsTxn(s1, v.t);
    assert Reaches(w, s, s') && Begun(s, s', v, p);
  }

  function Outcome(p: Purpose): TxnStatus { if p.CibaApprove? then Approved else Denied }

  /** The row the decision leaves. */
  function Decided(row: Txn, v: Visit, p: Purpose, now: nat): Txn {
    Txn(row.fixed, Outcome(p), Some(v.binding), Some(now))
  }

  lemma DecisionEnds(s: State, v: Visit, p: Purpose, pc: Pc)
    requires p.IsCiba() && StandsAt(s, v, p, Finish, pc) && HasBind(s, v, pc)
    requires p.authReqId in s.txns && s.txns[p.authReqId].status == Pending
    ensures var s' := HandlerFinishes(s, v.t);
      && s' == s.(txns := s.txns[p.authReqId := Decided(s.txns[p.authReqId], v, p, pc.start)],
                  threads := s.threads - {v.t}, log := s'.log, approvals := s'.approvals)
      && s.log <= s'.log
  {
  }

  /** Only an approval checks re-verification, and an AL3 approval always contacts SDID. */
  function AfterDecision(w: World, s: State, v: Visit, p: Purpose, al: Assurance): map<Id, Binding> {
    if p.CibaApprove? then Renewed(w, s, v.found, al == AL3) else s.bindings
  }

  predicate Checked(w: World, s: State, s': State, v: Visit, p: Purpose, al: Assurance, start: nat) {
    SameButBindings(s, s') && s'.bindings == AfterDecision(w, s, v, p, al) && Moved(s, s', v, p, Take, start)
  }

  /** The tables and the thread between the binding read and the consumption. */
  lemma ChecksFrom(w: World, s: State, s1: State, s': State, v: Visit, p: Purpose, al: Assurance, start: nat)
    requires Same(s, s1) && Moved(s, s1, v, p, AfterBinding(p), start) && p.IsCiba()
    requires p.CibaApprove? ==>
        Refreshed(w, s1, s', v, p, s1.threads[v.t]) && Forced(s1, s1.threads[v.t]) == (al == AL3)
    requires p.CibaDeny? ==> s' == s1
    ensures Checked(w, s, s', v, p, al, start)
  {
    hide Forced, Touch, LastSdidContact;
  }

  /** From the binding read to the consumption, for either decision. */
  lemma DecisionChecks(w: World, s0: State, s: State, v: Visit, p: Purpose, pc: Pc)
    requires p.IsCiba() && StandsAt(s, v, p, ReadBinding, pc) && Reaches(w, s0, s)
    requires v.binding in s.bindings && s.bindings[v.binding] == v.found && v.found.status == Active
    requires IsTxnRead(s, pc.at) && Suffices(v.found.fixed.assurance, s.log[pc.at].row.fixed.requestedAl)
    requires p.CibaApprove? ==> Passable(w, s, v.found, s.log[pc.at].row.fixed.requestedAl == AL3)
    ensures exists s' :: Reaches(w, s0, s') && Checked(w, s, s', v, p, s.log[pc.at].row.fixed.requestedAl, pc.start)
  {
    hide Reaches, HandlerReadsBinding, Touch, LastSdidContact, Checked, Refreshed;
    ReadsBinding(s, v, p, pc);
    ThenHandle(w, s0, s, ReadBindingStep(v.t));
    var s1 := HandlerReadsBinding(s, v.t);
    if p.CibaApprove? {
      Refreshes(w, s0, s1, v, p, s1.threads[v.t]);
      var s' :| Reaches(w, s0, s') && Refreshed(w, s1, s', v, p, s1.threads[v.t]);
      ChecksFrom(w, s, s1, s', v, p, s.log[pc.at].row.fixed.requestedAl, pc.start);
    } else {
      ChecksFrom(w, s, s1, s1, v, p, s.log[pc.at].row.fixed.requestedAl, pc.start);
    }
  }

  /** The listing hands out the challenge, and the device signs its answer to it. */
  lemma Asked(w: World, s: State, v: Visit, citizen: Id, p: Purpose)
    requires p.IsCiba() && Set(s, v) && CanDecide(s, v, citizen, p.authReqId)
    ensures exists s' :: Reaches(w, s, s') && Prepared(s, s', v, p)
  {
    hide Reaches, Prepare, Prepared;
    var stored := CibaApprove(p.authReqId);
    Stays(w, s);
    ThenAround(w, s, s, ListPendingStep(v.t, citizen, v.binding, p.authReqId));
    var s1 := Goto(s, v.t, Issuing(stored, v.binding));
    assert ListPending(s, v.t, citizen, v.binding, p.authReqId) == s1;
    IssuesAndSigns(w, s, v, stored, p);
    var s' := Prepare(s1, v, p);
    Follows(w, s, s1, s');
    assert Reaches(w, s, s') && Prepared(s, s', v, p);
  }

  /** The decision request up to its consumption. */
  lemma DecisionReady(w: World, s: State, v: Visit, citizen: Id, p: Purpose)
    requires p.IsCiba() && CanDecide(s, v, citizen, p.authReqId)
    requires p.CibaApprove? ==> Passable(w, s, v.found, s.txns[p.authReqId].fixed.requestedAl == AL3)
    ensures exists s' :: Reaches(w, s, s') && Checked(w, s, s', v, p, s.txns[p.authReqId].fixed.requestedAl, s.clock)
  {
    hide Reaches, Touch, LastSdidContact, HasBind;
    DecisionBegins(w, s, v, citizen, p);
    var s1 :| Reaches(w, s, s1) && Begun(s, s1, v, p);
    var al := s.txns[p.authReqId].fixed.requestedAl;
    DecisionChecks(w, s, s1, v, p, s1.threads[v.t]);
    var s' :| Reaches(w, s, s') && Checked(w, s1, s', v, p, al, s.clock);
    ChecksOn(w, s, s1, s', v, p, al);
  }

  lemma ChecksOn(w: World, s: State, s1: State, s': State, v: Visit, p: Purpose, al: Assurance)
    requires Begun(s, s1, v, p) && Checked(w, s1, s', v, p, al, s.clock)
    ensures Checked(w, s, s', v, p, al, s.clock)
  {
    hide HasBind, Touch, LastSdidContact;
  }

  predicate Passed(w: World, s: State, s': State, v: Visit, p: Purpose, al: Assurance) {
    && Kept(s, s'.(bindings := s.bindings)) && s'.used == s.used && s'.bindings == AfterDecision(w, s, v, p, al)
    && Moved(s, s', v, p, Finish, s.clock)
  }

  lemma PassesOn(w: World, s: State, s1: State, s': State, v: Visit, p: Purpose, al: Assurance)
    requires Checked(w, s, s1, v, p, al, s.clock) && Proven(s1, s', v, p, s.clock) && p.IsCiba()
    ensures Passed(w, s, s', v, p, al)
  {
    hide HasBind, AfterDecision;
  }

  /** The decision request up to its last step. */
  lemma Passes(w: World, s: State, v: Visit, citizen: Id, p: Purpose, signature: nat)
    requires p.IsCiba() && CanDecide(s, v, citizen, p.authReqId) && Held(s, v, p, signature)
    requires p.CibaApprove? ==> Passable(w, s, v.found, s.txns[p.authReqId].fixed.requestedAl == AL3)
    ensures exists s' :: Reaches(w, s, s') && Passed(w, s, s', v, p, s.txns[p.authReqId].fixed.requestedAl)
  {
    hide Reaches, Held, AfterDecision, HasBind, Guard, Passable;
    var al := s.txns[p.authReqId].fixed.requestedAl;
    DecisionReady(w, s, v, citizen, p);
    var s1 :| Reaches(w, s, s1) && Checked(w, s, s1, v, p, al, s.clock);
    HeldLater(s, s1, v, p, signature);
    TakesAndVerifies(w, s, s1, v, p, s1.threads[v.t], signature);
    var s' :| Reaches(w, s, s') && Proven(s1, s', v, p, s.clock);
    PassesOn(w, s, s1, s', v, p, al);
  }

  /** The row holds the decision, and SDID's answer, if it was asked, is noted. */
  predicate Settled(w: World, s: State, s': State, v: Visit, p: Purpose)
    requires p.IsCiba() && p.authReqId in s.txns
  {
    && s'.txns == s.txns[p.authReqId := Decided(s.txns[p.authReqId], v, p, s.clock)]
    && s'.bindings == AfterDecision(w, s, v, p, s.txns[p.authReqId].fixed.requestedAl)
  }

  predicate Responded(w: World, s: State, s': State, v: Visit, p: Purpose)
    requires p.IsCiba() && p.authReqId in s.txns
  {
    && Kept(s, s'.(txns := s.txns, bindings := s.bindings)) && s'.used == s.used && s'.threads == s.threads
    && Settled(w, s, s', v, p)
  }

  lemma RespondsOn(w: World, s: State, s1: State, v: Visit, p: Purpose)
    requires p.IsCiba() && p.authReqId in s.txns && s.txns[p.authReqId].status == Pending && v.t !in s.threads
    requires Passed(w, s, s1, v, p, s.txns[p.authReqId].fixed.requestedAl)
    ensures Responded(w, s, HandlerFinishes(s1, v.t), v, p)
  {
    hide HandlerFinishes, AfterDecision;
    DecisionEnds(s1, v, p, s1.threads[v.t]);
  }

  lemma Responds(w: World, s: State, v: Visit, citizen: Id, p: Purpose, signature: nat)
    requires p.IsCiba() && CanDecide(s, v, citizen, p.authReqId) && Held(s, v, p, signature)
    requires p.CibaApprove? ==> Passable(w, s, v.found, s.txns[p.authReqId].fixed.requestedAl == AL3)
    ensures exists s' :: Reaches(w, s, s') && Responded(w, s, s', v, p)
  {
    hide Reaches, Held, Guard, HandlerFinishes, Passable, Passed, Responded;
    Passes(w, s, v, citizen, p, signature);
    var s1 :| Reaches(w, s, s1) && Passed(w, s, s1, v, p, s.txns[p.authReqId].fixed.requestedAl);
    RespondsOn(w, s, s1, v, p);
    ThenHandle(w, s, s1, FinishStep(v.t));
  }

  /**
   * A listed request, answered: the row takes the decision, the binding and the time, and a contact with SDID is noted.
   */
  lemma Answers(w: World, s: State, v: Visit, citizen: Id, p: Purpose)
    requires p.IsCiba() && Set(s, v) && CanDecide(s, v, citizen, p.authReqId)
    requires p.CibaApprove? ==> Passable(w, s, v.found, s.txns[p.authReqId].fixed.requestedAl == AL3)
    ensures exists s' :: Reaches(w, s, s') && Finishes(s, s', v) && s'.sessions == s.sessions && Settled(w, s, s', v, p)
  {
    hide Reaches, BuildChallengePayload, StoredPurpose, Touch, LastSdidContact;
    Asked(w, s, v, citizen, p);
    var s1 :| Reaches(w, s, s1) && Prepared(s, s1, v, p);
    Responds(w, s1, v, citizen, p, |s.log| + 1);
    var s' :| Reaches(w, s1, s') && Responded(w, s1, s', v, p);
    Follows(w, s, s1, s');
    assert Reaches(w, s, s') && Finishes(s, s', v) && s'.sessions == s.sessions && Settled(w, s, s', v, p);
  }

  // -------------------------------------------------------- activation and login

  predicate Found(s: State, s': State, v: Visit, p: Purpose) {
    Same(s, s') && Moved(s, s', v, p, Take, s.clock)
  }

  /** `login` and `activate` up to their binding read. */
  lemma OpensBinding(w: World, s: State, v: Visit, p: Purpose)
    requires (p.Login? || p.Activation?) && Ready(s, v)
    requires v.found.status == if p.Activation? then Waiting else Active
    ensures exists s' :: Reaches(w, s, s') && Found(s, s', v, p)
  {
    hide Reaches, HandlerReadsBinding;
    Stays(w, s);
    ThenHandle(w, s, s, StartHandlerStep(v.t, Reqs(v, p)));
    var pc := Handling(ReadBinding, Reqs(v, p), s.clock, "", v.binding, -1, -1);
    var s1 := Goto(s, v.t, pc);
    assert StartHandler(s, v.t, Reqs(v, p)) == s1;
    ReadsBinding(s1, v, p, pc);
    ThenHandle(w, s, s1, ReadBindingStep(v.t));
    var s' := HandlerReadsBinding(s1, v.t);
    assert Reaches(w, s, s') && Found(s, s', v, p);
  }

  lemma FoundOn(s: State, s1: State, s': State, v: Visit, p: Purpose)
    requires Found(s, s1, v, p) && Proven(s1, s', v, p, s.clock)
    ensures Proven(s, s', v, p, s.clock)
  {
    hide HasBind;
  }

  /** `login` and `activate` up to and including the signature check. */
  lemma Opens(w: World, s: State, v: Visit, p: Purpose, signature: nat)
    requires (p.Login? || p.Activation?) && Ready(s, v) && Held(s, v, p, signature)
    requires v.found.status == if p.Activation? then Waiting else Active
    ensures exists s' :: Reaches(w, s, s') && Proven(s, s', v, p, s.clock)
  {
    hide Reaches, Held, Ready, Proven;
    OpensBinding(w, s, v, p);
    var s1 :| Reaches(w, s, s1) && Found(s, s1, v, p);
    HeldLater(s, s1, v, p, signature);
    TakesAndVerifies(w, s, s1, v, p, s1.threads[v.t], signature);
    var s' :| Reaches(w, s, s') && Proven(s1, s', v, p, s.clock);
    FoundOn(s, s1, s', v, p);
  }

  function Activated(b: Binding, now: nat): Binding { b.(status := Active, activatedAt := Some(now)) }

  lemma ActivationEnds(s: State, v: Visit, pc: Pc)
    requires StandsAt(s, v, Activation, Finish, pc) && HasBind(s, v, pc)
    requires v.binding in s.bindings && s.bindings[v.binding] == v.found
    ensures var s' := HandlerFinishes(s, v.t);
      s' == s.(bindings := s.bindings[v.binding := Activated(v.found, s.clock)], threads := s.threads - {v.t},
          log := s'.log)
      && s.log <= s'.log
  {
  }

  lemma LoginEnds(s: State, v: Visit, pc: Pc)
    requires StandsAt(s, v, Login, Finish, pc) && HasBind(s, v, pc)
    ensures var s' := HandlerFinishes(s, v.t);
      s' == s.(sessions := s.sessions + {(v.found.fixed.citizen, v.binding)}, threads := s.threads - {v.t},
          log := s'.log)
      && s.log <= s'.log
  {
  }

  predicate NowActive(s: State, s': State, v: Visit) {
    && Finishes(s, s', v) && s'.txns == s.txns && s'.sessions == s.sessions
    && s'.bindings == s.bindings[v.binding := Activated(v.found, s.clock)]
  }

  /** An enrolled device with its activation challenge answered becomes active. */
  lemma ActivatesOn(s: State, s1: State, s2: State, v: Visit)
    requires Set(s, v) && Prepared(s, s1, v, Activation) && Proven(s1, s2, v, Activation, s1.clock)
    ensures NowActive(s, HandlerFinishes(s2, v.t), v)
  {
    hide HandlerFinishes, BuildChallengePayload, StoredPurpose;
    ActivationEnds(s2, v, s2.threads[v.t]);
  }

  lemma Activates(w: World, s: State, v: Visit)
    requires Set(s, v) && v.found.status == Waiting
    ensures exists s' :: Reaches(w, Goto(s, v.t, Issuing(Activation, v.binding)), s') && NowActive(s, s', v)
  {
    hide Reaches, HandlerFinishes, BuildChallengePayload, StoredPurpose, Prepare, Proven, NowActive;
    var s0 := Goto(s, v.t, Issuing(Activation, v.binding));
    IssuesAndSigns(w, s, v, Activation, Activation);
    var s1 := Prepare(s0, v, Activation);
    Opens(w, s1, v, Activation, |s.log| + 1);
    var s2 :| Reaches(w, s1, s2) && Proven(s1, s2, v, Activation, s1.clock);
    ActivatesOn(s, s1, s2, v);
    ThenHandle(w, s1, s2, FinishStep(v.t));
    Follows(w, s0, s1, HandlerFinishes(s2, v.t));
  }

  lemma LoginAsked(w: World, s: State, v: Visit)
    requires Set(s, v) && v.found.status == Active
    ensures exists s' :: Reaches(w, s, s') && Prepared(s, s', v, Login)
  {
    hide Reaches, Prepare, Prepared;
    var s0 := Goto(s, v.t, Issuing(Login, v.binding));
    Stays(w, s);
    ThenAround(w, s, s, LoginChallengeStep(v.t, v.binding));
    assert StartLoginChallenge(s, v.t, v.binding) == s0;
    IssuesAndSigns(w, s, v, Login, Login);
    var s' := Prepare(s0, v, Login);
    Follows(w, s, s0, s');
    assert Reaches(w, s, s') && Prepared(s, s', v, Login);
  }

  predicate SessionGiven(w: World, s: State, s': State, v: Visit) {
    s'.sessions == s.sessions + {(v.found.fixed.citizen, v.binding)} && s'.bindings == Renewed(w, s, v.found, false)
  }

  predicate Closed(w: World, s: State, s': State, v: Visit) {
    && Kept(s, s'.(sessions := s.sessions, bindings := s.bindings)) && s'.used == s.used
    && s'.threads == s.threads - {v.t} && SessionGiven(w, s, s', v)
  }

  /** The rest of `login` after its signature check. */
  lemma LoginCloses(w: World, s0: State, s: State, v: Visit, pc: Pc)
    requires StandsAt(s, v, Login, CheckDue, pc) && HasBind(s, v, pc) && Passable(w, s, v.found, false)
    requires Reaches(w, s0, s)
    ensures exists s' :: Reaches(w, s0, s') && Closed(w, s, s', v)
  {
    hide Reaches, HandlerFinishes, Touch, LastSdidContact, Refreshed, Closed;
    Refreshes(w, s0, s, v, Login, pc);
    var s1 :| Reaches(w, s0, s1) && Refreshed(w, s, s1, v, Login, pc);
    ThenHandle(w, s0, s1, FinishStep(v.t));
    ClosesOn(w, s, s1, v, pc);
    var s' := HandlerFinishes(s1, v.t);
    assert Reaches(w, s0, s') && Closed(w, s, s', v);
  }

  lemma ClosesOn(w: World, s: State, s1: State, v: Visit, pc: Pc)
    requires StandsAt(s, v, Login, CheckDue, pc) && HasBind(s, v, pc) && Refreshed(w, s, s1, v, Login, pc)
    ensures Closed(w, s, HandlerFinishes(s1, v.t), v)
  {
    hide HandlerFinishes, Touch, LastSdidContact;
    LoginEnds(s1, v, s1.threads[v.t]);
  }

  predicate SignedIn(s: State, s': State, v: Visit) {
    Kept(s, s') && s'.used == s.used + {v.challenge} && Moved(s, s', v, Login, CheckDue, s.clock)
  }

  lemma SignsIn(w: World, s: State, v: Visit)
    requires Set(s, v) && v.found.status == Active
    ensures exists s' :: Reaches(w, s, s') && SignedIn(s, s', v)
  {
    hide Reaches, BuildChallengePayload, StoredPurpose, HasBind;
    LoginAsked(w, s, v);
    var s1 :| Reaches(w, s, s1) && Prepared(s, s1, v, Login);
    Opens(w, s1, v, Login, |s.log| + 1);
    var s' :| Reaches(w, s1, s') && Proven(s1, s', v, Login, s1.clock);
    Follows(w, s, s1, s');
    assert Reaches(w, s, s') && SignedIn(s, s', v);
  }

  /** An active device gets a session: its SDID contact is recent, or SDID answers well. */
  lemma LogsIn(w: World, s: State, v: Visit)
    requires Set(s, v) && v.found.status == Active && Passable(w, s, v.found, false)
    ensures exists s' :: Reaches(w, s, s') && Finishes(s, s', v) && s'.txns == s.txns && SessionGiven(w, s, s', v)
  {
    hide Reaches, Touch, LastSdidContact, HasBind;
    SignsIn(w, s, v);
    var s1 :| Reaches(w, s, s1) && SignedIn(s, s1, v);
    LoginCloses(w, s, s1, v, s1.threads[v.t]);
    var s' :| Reaches(w, s, s') && Closed(w, s1, s', v);
    assert Reaches(w, s, s') && Finishes(s, s', v) && s'.txns == s.txns && SessionGiven(w, s, s', v);
  }

  // ------------------------------------------------------------------- redemption

  /** An approved row, its binding still in the table. */
  predicate Redeemable(s: State, t: Thread, id: Id) {
    && t !in s.threads && id in s.txns && s.txns[id].status == Approved
    && s.txns[id].binding.Some? && s.txns[id].binding.value in s.bindings && s.txns[id].resolvedAt.Some?
  }

  function DueGrant(s: State, id: Id): Grant
    requires id in s.txns && s.txns[id].binding.Some? && s.txns[id].binding.value in s.bindings
    requires s.txns[id].resolvedAt.Some?
  {
    var Txn(fixed, _, binding, resolvedAt) := s.txns[id];
    Grant(fixed.rp, fixed.citizen, fixed.scopes, s.bindings[binding.value].fixed.assurance, resolvedAt.value)
  }

  predicate EndsWithToken(s: State, id: Id, grant: Grant, oidcNonce: Option<string>) {
    && |s.log| > 0 && s.log[|s.log| - 1].Token? && s.log[|s.log| - 1].txn == id
    && s.log[|s.log| - 1].grant == grant && s.log[|s.log| - 1].rp == grant.rp
    && s.log[|s.log| - 1].oidcNonce == oidcNonce
  }

  lemma CibaGathers(w: World, s: State, t: Thread, id: Id)
    requires Redeemable(s, t, id)
    ensures Reaches(w, s, Goto(s, t, CibaCas(id, s.txns[id], DueGrant(s, id), s.txns[id].fixed.rp)))
  {
    hide Reaches;
    var rp := s.txns[id].fixed.rp;
    Stays(w, s);
    ThenServe(w, s, s, CibaReadStep(t, id, rp));
    var s1 := CibaGrantReads(s, t, id, rp);
    assert s1 == Goto(s, t, CibaBind(id, s.txns[id], s.clock, rp));
    ThenServe(w, s, s1, CibaBindStep(t));
    assert CibaGrantReadsBinding(s1, t) == Goto(s, t, CibaCas(id, s.txns[id], DueGrant(s, id), rp));
  }

  predicate Used(s: State, s': State, id: Id) {
    id in s.txns && id in s'.txns && s'.txns[id] == s.txns[id].(status := Consumed)
  }

  /** A relying party that asks for its own approved transaction gets the token that approval is worth. */
  lemma CibaRedeems(w: World, s: State, t: Thread, id: Id)
    requires Redeemable(s, t, id)
    ensures exists s' :: Reaches(w, s, s') && Used(s, s', id) && EndsWithToken(s', id, DueGrant(s, id), None)
  {
    hide Reaches, DueGrant;
    CibaGathers(w, s, t, id);
    var s1 := Goto(s, t, CibaCas(id, s.txns[id], DueGrant(s, id), s.txns[id].fixed.rp));
    ThenServe(w, s, s1, CibaConsumeStep(t));
    var s2 := CibaGrantConsumes(s1, t);
    ThenServe(w, s, s2, MintStep(t));
    var s' := Mints(s2, t);
    RightParty(s, id);
    assert Reaches(w, s, s') && Used(s, s', id) && EndsWithToken(s', id, DueGrant(s, id), None);
  }

  /** One that asks for a transaction still pending past its expiry finds it marked expired, nothing else changed. */
  lemma CibaMarksExpired(w: World, s: State, t: Thread, id: Id)
    requires t !in s.threads && id in s.txns && s.txns[id].status == Pending && s.txns[id].fixed.expiresAt <= s.clock
    ensures Reaches(w, s, s.(txns := s.txns[id := s.txns[id].(status := Expired)]))
  {
    hide Reaches;
    var rp := s.txns[id].fixed.rp;
    Stays(w, s);
    ThenServe(w, s, s, CibaReadStep(t, id, rp));
    var s1 := CibaGrantReads(s, t, id, rp);
    assert s1 == Goto(s, t, Expiring(id));
    ThenServe(w, s, s1, CibaExpireStep(t));
    assert CibaGrantExpires(s1, t).threads == s.threads;
  }

  lemma RightParty(s: State, id: Id)
    requires id in s.txns && s.txns[id].binding.Some? && s.txns[id].binding.value in s.bindings
    requires s.txns[id].resolvedAt.Some?
    ensures DueGrant(s, id).rp == s.txns[id].fixed.rp
  {
  }

  function Polled(w: World, s: State, t: Thread, id: Id): State
    requires Redeemable(s, t, id) && id in s.stashes
  {
    Goto(s, t, PollCas(id, DueGrant(s, id), s.stashes[id], s.clock + w.codeTtl))
  }

  lemma PollGathers(w: World, s: State, t: Thread, id: Id)
    requires Redeemable(s, t, id) && s.txns[id].fixed.flow == CodeFlow && id in s.stashes
    ensures Reaches(w, s, Polled(w, s, t, id))
  {
    PollMoves(w, s, t, id);
    hide Reaches, Redeemable, PollReads, PollReadsStash, PollReadsBinding, Polled;
    Stays(w, s);
    ThenServe(w, s, s, PollReadStep(t, id));
    ThenServe(w, s, PollReads(s, t, id), PollStashStep(t));
    ThenServe(w, s, PollReadsStash(PollReads(s, t, id), t), PollBindStep(t));
  }

  lemma PollMoves(w: World, s: State, t: Thread, id: Id)
    requires Redeemable(s, t, id) && s.txns[id].fixed.flow == CodeFlow && id in s.stashes
    ensures PollReadsBinding(w, PollReadsStash(PollReads(s, t, id), t), t) == Polled(w, s, t, id)
  {
    var s1 := Goto(s, t, PollStash(id, s.txns[id], s.clock));
    assert PollReads(s, t, id) == s1;
    var s2 := Goto(s, t, PollBind(id, s.txns[id], s.stashes[id], s.clock));
    assert PollReadsStash(s1, t) == s2;
    assert PollReadsBinding(w, s2, t) == Polled(w, s, t, id);
  }

  /** The code row a poll inserts, whichever entry of the log records it. */
  predicate CodeFor(row: Code, id: Id, grant: Grant, stash: Stash, expiresAt: nat) {
    row.txn == id && row.grant == grant && row.stash == stash && row.expiresAt == expiresAt && !row.consumed
  }

  predicate CodeOut(w: World, s: State, s': State, t: Thread, id: Id, code: Id)
    requires Redeemable(s, t, id) && id in s.stashes
  {
    && t !in s'.threads && s'.clock == s.clock && Used(s, s', id) && code in s'.codes
    && CodeFor(s'.codes[code], id, DueGrant(s, id), s.stashes[id], s.clock + w.codeTtl)
  }

  /** The browser's poll turns an approved code-flow row into a code that carries the stashed PKCE challenge. */
  lemma PollIssues(w: World, s: State, t: Thread, id: Id, code: Id)
    requires Redeemable(s, t, id) && s.txns[id].fixed.flow == CodeFlow && id in s.stashes && code !in s.used
    ensures exists s' :: Reaches(w, s, s') && CodeOut(w, s, s', t, id, code)
  {
    hide Reaches, DueGrant;
    PollGathers(w, s, t, id);
    var s1 := Polled(w, s, t, id);
    ThenServe(w, s, s1, PollConsumeStep(t));
    var s2 := PollConsumes(s1, t);
    ThenServe(w, s, s2, PollInsertStep(t, code));
    var s' := PollInserts(s2, t, code);
    assert Reaches(w, s, s') && CodeOut(w, s, s', t, id, code);
  }

  predicate CodeSpent(s: State, s': State, code: Id) {
    && code in s.codes && code in s'.codes && s'.codes[code] == s.codes[code].(consumed := true) && s'.txns == s.txns
  }

  lemma CodeRedeems(w: World, s: State, t: Thread, code: Id)
    requires t !in s.threads && code in s.codes && !s.codes[code].consumed && s.codes[code].expiresAt > s.clock
    ensures exists s' ::
        Reaches(w, s, s') && CodeSpent(s, s', code)
            && EndsWithToken(s', s.codes[code].txn, s.codes[code].grant, s.codes[code].stash.oidcNonce)
  {
    hide Reaches;
    var row := s.codes[code];
    Stays(w, s);
    ThenServe(w, s, s, CodeReadStep(t, code, row.grant.rp, row.stash.pkce));
    var s1 := CodeGrantReads(s, t, code, row.grant.rp, row.stash.pkce);
    ThenServe(w, s, s1, CodeConsumeStep(t));
    var s2 := CodeGrantConsumes(s1, t);
    ThenServe(w, s, s2, MintStep(t));
    var s' := Mints(s2, t);
    assert Reaches(w, s, s') && CodeSpent(s, s', code)
        && EndsWithToken(s', s.codes[code].txn, s.codes[code].grant, s.codes[code].stash.oidcNonce);
  }

  // --------------------------------------------------------------- the whole visit

  /** The names a first visit draws, one after the other. */
  datatype Names = Names(t: Thread, binding: Id, activation: Id, login: Id, request: Id, approval: Id, code: Id,
      nonce: string)

  predicate NewNames(s: State, n: Names) {
    && n.t !in s.threads && ColonFree(n.nonce) && n.binding !in s.bindings
    && ColonFree(n.activation) && ColonFree(n.login) && ColonFree(n.request) && ColonFree(n.approval)
    && n.binding !in s.used && n.activation !in s.used && n.login !in s.used && n.request !in s.used
    && n.approval !in s.used && n.code !in s.used
    && n.activation != n.binding && n.login !in {n.binding, n.activation}
    && n.request !in {n.binding, n.activation, n.login}
    && n.approval !in {n.binding, n.activation, n.login, n.request}
    && n.code !in {n.binding, n.activation, n.login, n.request, n.approval}
  }

  /** The device is active and its citizen holds a session. */
  predicate Welcome(s: State, s': State, n: Names, who: BindingKey) {
    && s'.clock == s.clock && s'.threads == s.threads && s'.used == s.used + {n.binding, n.activation, n.login}
    && n.binding in s'.bindings && s'.bindings[n.binding].fixed == who && s'.bindings[n.binding].status == Active
    && LastSdidContact(s'.bindings[n.binding]) == s.clock && s'.suspended == s.suspended
    && (who.citizen, n.binding) in s'.sessions && s'.txns == s.txns && s'.stashes == s.stashes
  }

  lemma Enrols(w: World, s: State, n: Names, who: BindingKey)
    requires NewNames(s, n) && (w.reverifyInterval == 0 ==> who.citizen !in s.suspended)
    ensures exists s' :: Reaches(w, s, s') && Welcome(s, s', n, who)
  {
    hide Reaches, ColonFree;
    var row := Binding(who, Waiting, s.clock, None, None);
    var s1 := s.(bindings := s.bindings[n.binding := row], used := s.used + {n.binding});
    Stays(w, s);
    ThenAround(w, s, s, EnrolStep(n.t, n.binding, who));
    assert Enrol(s, n.t, n.binding, who) == Goto(s1, n.t, Issuing(Activation, n.binding));
    var v1 := Visit(n.t, n.binding, row, n.activation, n.nonce);
    Activates(w, s1, v1);
    var s2 :| Reaches(w, Goto(s1, n.t, Issuing(Activation, n.binding)), s2) && NowActive(s1, s2, v1);
    Follows(w, s, Goto(s1, n.t, Issuing(Activation, n.binding)), s2);
    var v := Visit(n.t, n.binding, s2.bindings[n.binding], n.login, n.nonce);
    LogsIn(w, s2, v);
    var s' :| Reaches(w, s2, s') && Finishes(s2, s', v) && s'.txns == s2.txns && SessionGiven(w, s2, s', v);
    Follows(w, s, s2, s');
    WelcomeOn(w, s, s1, s2, s', n, who, row);
  }

  lemma WelcomeOn(w: World, s: State, s1: State, s2: State, s': State, n: Names, who: BindingKey, row: Binding)
    requires row == Binding(who, Waiting, s.clock, None, None)
    requires s1 == s.(bindings := s.bindings[n.binding := row], used := s.used + {n.binding})
    requires NowActive(s1, s2, Visit(n.t, n.binding, row, n.activation, n.nonce))
    requires var v := Visit(n.t, n.binding, s2.bindings[n.binding], n.login, n.nonce);
      Finishes(s2, s', v) && s'.txns == s2.txns && SessionGiven(w, s2, s', v)
    ensures Welcome(s, s', n, who)
  {
  }

  /** The relying party's request: a pending row and, in the code flow, its stash. */
  function Requested(s: State, id: Id, fixed: Request): State {
    s.(txns := s.txns[id := Txn(fixed, Pending, None, None)], used := s.used + {id},
       stashes := if fixed.flow == CodeFlow then s.stashes[id := fixed.sent] else s.stashes)
  }

  lemma Requests(w: World, s: State, t: Thread, id: Id, fixed: Request)
    requires t !in s.threads && id !in s.used && ColonFree(id)
    ensures Reaches(w, s, Requested(s, id, fixed))
  {
    hide Reaches, ColonFree;
    Stays(w, s);
    ThenAround(w, s, s, CreateStep(t, id, fixed));
    var s1 := Create(s, t, id, fixed);
    if fixed.flow == CodeFlow {
      ThenAround(w, s, s1, PutStashStep(t));
      assert PutStash(s1, t) == Requested(s, id, fixed);
    }
  }

  /** What the relying party is due from this visit. */
  function Due(who: BindingKey, fixed: Request, now: nat): Grant {
    Grant(fixed.rp, fixed.citizen, fixed.scopes, who.assurance, now)
  }

  /** The device is ready to answer the request. */
  predicate Listed(s: State, s': State, n: Names, who: BindingKey, fixed: Request) {
    && s'.clock == s.clock && s'.suspended == s.suspended && n.approval !in s'.used && n.code !in s'.used
    && n.t !in s'.threads && n.binding in s'.bindings && s'.bindings[n.binding].fixed == who
    && LastSdidContact(s'.bindings[n.binding]) == s.clock && Guard(s', who.citizen, n.binding)
    && n.request in s'.txns && s'.txns[n.request] == Txn(fixed, Pending, None, None)
    && (fixed.flow == CodeFlow ==> n.request in s'.stashes && s'.stashes[n.request] == fixed.sent)
  }

  /** Enrolment, login and the relying party's request. */
  lemma Lists(w: World, s: State, n: Names, who: BindingKey, fixed: Request)
    requires NewNames(s, n) && (w.reverifyInterval == 0 ==> who.citizen !in s.suspended)
    ensures exists s' :: Reaches(w, s, s') && Listed(s, s', n, who, fixed)
  {
    hide Reaches, ColonFree, LastSdidContact;
    Enrols(w, s, n, who);
    var s1 :| Reaches(w, s, s1) && Welcome(s, s1, n, who);
    Requests(w, s1, n.t, n.request, fixed);
    var s' := Requested(s1, n.request, fixed);
    Follows(w, s, s1, s');
    assert Reaches(w, s, s') && Listed(s, s', n, who, fixed);
  }

  predicate Granted(s: State, s': State, n: Names, who: BindingKey, fixed: Request) {
    && s'.clock == s.clock && Redeemable(s', n.t, n.request) && n.code !in s'.used
    && DueGrant(s', n.request) == Due(who, fixed, s.clock) && s'.txns[n.request].fixed == fixed
    && (fixed.flow == CodeFlow ==> n.request in s'.stashes && s'.stashes[n.request] == fixed.sent)
  }

  function DueNonce(fixed: Request): Option<string> { if fixed.flow == CodeFlow then fixed.sent.oidcNonce else None }

  /** Enrolment, login, request and approval leave a row that can be redeemed for what is due. */
  lemma Approves(w: World, s: State, n: Names, who: BindingKey, fixed: Request)
    requires NewNames(s, n) && fixed.citizen == who.citizen && fixed.expiresAt > s.clock
    requires Suffices(who.assurance, fixed.requestedAl)
    requires w.reverifyInterval == 0 || fixed.requestedAl == AL3 ==> who.citizen !in s.suspended
    ensures exists s' :: Reaches(w, s, s') && Granted(s, s', n, who, fixed)
  {
    hide Reaches, ColonFree, Suffices, LastSdidContact;
    Lists(w, s, n, who, fixed);
    var s1 :| Reaches(w, s, s1) && Listed(s, s1, n, who, fixed);
    var v, p := Visit(n.t, n.binding, s1.bindings[n.binding], n.approval, n.nonce), CibaApprove(n.request);
    Answers(w, s1, v, who.citizen, p);
    var s' :| Reaches(w, s1, s') && Finishes(s1, s', v) && s'.sessions == s1.sessions && Settled(w, s1, s', v, p);
    Follows(w, s, s1, s');
    assert Reaches(w, s, s') && Granted(s, s', n, who, fixed);
  }

  lemma Visited(w: World, s: State, n: Names, who: BindingKey, fixed: Request)
    requires NewNames(s, n) && fixed.citizen == who.citizen && fixed.expiresAt > s.clock
    requires Suffices(who.assurance, fixed.requestedAl)
    requires w.reverifyInterval == 0 || fixed.requestedAl == AL3 ==> who.citizen !in s.suspended
    requires fixed.flow == CodeFlow ==> w.codeTtl > 0
    ensures exists s' :: Reaches(w, s, s') && EndsWithToken(s', n.request, Due(who, fixed, s.clock), DueNonce(fixed))
  {
    hide Reaches, Suffices, NewNames, DueGrant, Due;
    Approves(w, s, n, who, fixed);
    var s1 :| Reaches(w, s, s1) && Granted(s, s1, n, who, fixed);
    var grant := DueGrant(s1, n.request);
    var s': State;
    if fixed.flow == CibaFlow {
      CibaRedeems(w, s1, n.t, n.request);
      s' :| Reaches(w, s1, s') && EndsWithToken(s', n.request, grant, DueNonce(fixed));
    } else {
      PollIssues(w, s1, n.t, n.request, n.code);
      var s2 :| Reaches(w, s1, s2) && CodeOut(w, s1, s2, n.t, n.request, n.code);
      CodeRedeems(w, s2, n.t, n.code);
      s' :| Reaches(w, s2, s')
          && EndsWithToken(s', s2.codes[n.code].txn, s2.codes[n.code].grant, s2.codes[n.code].stash.oidcNonce);
      Follows(w, s1, s2, s');
    }
    Follows(w, s, s1, s');
    assert Reaches(w, s, s') && EndsWithToken(s', n.request, Due(who, fixed, s.clock), DueNonce(fixed));
  }

  /**
   * After any run, however adversarial, a citizen who enrols a device, logs in, is asked and approves has a
   * continuation in which the relying party's token is minted, for exactly what was asked at the device's assurance and
   * time.
   */
  lemma HonestVisitEndsWithItsToken(w: World, run: seq<Step>, n: Names, who: BindingKey, fixed: Request)
    requires NewNames(Exec(w, run), n) && (fixed.flow == CodeFlow ==> w.codeTtl > 0)
    requires fixed.citizen == who.citizen && fixed.expiresAt > Exec(w, run).clock
    requires fixed.requestedAl == AL1 || who.assurance == fixed.requestedAl || who.assurance == AL3
    requires w.reverifyInterval == 0 || fixed.requestedAl == AL3 ==> who.citizen !in Exec(w, run).suspended
    ensures exists more ::
        EndsWithToken(Exec(w, run + more), n.request, Due(who, fixed, Exec(w, run).clock), DueNonce(fixed))
  {
    hide Apply, NewNames, EndsWithToken, Due;
    var s, grant := Exec(w, run), Due(who, fixed, Exec(w, run).clock);
    Visited(w, s, n, who, fixed);
    var s' :| Reaches(w, s, s') && EndsWithToken(s', n.request, grant, DueNonce(fixed));
    var more :| Play(w, Exec(w, run), more) == s';
    Continues(w, run, more);
  }
}
