/** How rows move along a run, and where codes and decisions come from. */
module ProtocolRows {
  import opened Common
  import opened Challenge
  import opened Protocol
  import opened ProtocolInvariant
  import opened ProtocolPreserved
  import opened ProtocolRuns
  import opened ProtocolTheorems
  import Frames = ProtocolFrames

  // -------------------------------------------------------- transaction status

  predicate AllowedMove(a: TxnStatus, b: TxnStatus) {
    a == b || (a == Pending && b in {Approved, Denied, Expired}) || (a == Approved && b == Consumed)
  }

  /** Rows are never removed, keep their fixed columns, start pending and move only along the allowed edges. */
  ghost predicate RowsMove(s: State, s': State) {
    && (forall id | id in s.txns ::
          id in s'.txns && s'.txns[id].fixed == s.txns[id].fixed && AllowedMove(s.txns[id].status, s'.txns[id].status))
    && (forall id | id in s'.txns && id !in s.txns :: s'.txns[id].status == Pending)
  }

  lemma SameRows(s: State, s': State)
    requires s'.txns == s.txns
    ensures RowsMove(s, s')
  {
  }

  lemma OneRow(s: State, s': State, id: Id, row: Txn)
    requires s'.txns == s.txns[id := row]
    requires if id in s.txns then row.fixed == s.txns[id].fixed && AllowedMove(s.txns[id].status, row.status)
      else row.status == Pending
    ensures RowsMove(s, s')
  {
  }

  lemma CreateMoves(w: World, s: State, t: Thread, id: Id, fixed: Request)
    requires Inv(w, s)
    ensures RowsMove(s, Create(s, t, id, fixed))
  {
    hide RowsMove, Inv;
    SameRows(s, s);
    if id !in s.used && ColonFree(id) && t !in s.threads {
      if id in s.txns { InvTxn(w, s, id); }
      OneRow(s, Create(s, t, id, fixed), id, Txn(fixed, Pending, None, None));
    }
  }

  lemma RequestMoves(w: World, s: State, step: RequestStep)
    requires Inv(w, s)
    ensures RowsMove(s, ApplyRequest(w, s, step))
  {
    hide Inv, RowsMove, Create;
    if Frames.PlainRequest(step) {
      Frames.RequestPlain(w, s, step);
      hide ApplyRequest;
      SameRows(s, ApplyRequest(w, s, step));
    } else if step.CreateStep? {
      CreateMoves(w, s, step.t, step.id, step.fixed);
    } else {
      SameRows(s, ApplyRequest(w, s, step));
    }
  }

  lemma DecideMoves(s: State, t: Thread, pc: Pc, id: Id, status: TxnStatus)
    requires pc.Handling? && pc.bind >= 0 && status in {Approved, Denied}
    ensures RowsMove(s, Decide(s, t, pc, id, status))
  {
    hide RowsMove;
    var s' := Decide(s, t, pc, id, status);
    if id in s.txns && s.txns[id].status == Pending { OneRow(s, s', id, s'.txns[id]); } else { SameRows(s, s'); }
  }

  lemma FinishMoves(s: State, t: Thread)
    ensures RowsMove(s, HandlerFinishes(s, t))
  {
    hide RowsMove, Record, Stop, Decide;
    Frames.Tables(t);
    if t in s.threads && s.threads[t].Handling? && s.threads[t].bind >= 0 && s.threads[t].req.purpose.IsCiba() {
      DecideMoves(s, t, s.threads[t], s.threads[t].req.purpose.authReqId, Approved);
      DecideMoves(s, t, s.threads[t], s.threads[t].req.purpose.authReqId, Denied);
      SameRows(s, s);
    } else {
      SameRows(s, HandlerFinishes(s, t));
    }
  }

  lemma HandlerMoves(w: World, s: State, step: HandlerStep)
    ensures RowsMove(s, ApplyHandler(w, s, step))
  {
    hide RowsMove, HandlerFinishes;
    if step.FinishStep? {
      FinishMoves(s, step.t);
    } else if Frames.PlainHandler(step) {
      Frames.HandlerPlain(w, s, step);
      hide ApplyHandler;
      SameRows(s, ApplyHandler(w, s, step));
    } else {
      SameRows(s, ApplyHandler(w, s, step));
    }
  }

  lemma RedeemMoves(s: State, t: Thread, id: Id, grant: Grant, next: Pc)
    ensures RowsMove(s, Redeem(s, t, id, grant, next))
  {
    hide RowsMove, Record, Stop;
    Frames.Tables(t);
    if id in s.txns && s.txns[id].status == Approved {
      OneRow(s, Redeem(s, t, id, grant, next), id, s.txns[id].(status := Consumed));
    } else {
      SameRows(s, Redeem(s, t, id, grant, next));
    }
  }

  lemma ExpireMoves(s: State, t: Thread)
    ensures RowsMove(s, CibaGrantExpires(s, t))
  {
    hide RowsMove, Stop;
    Frames.Tables(t);
    var s' := CibaGrantExpires(s, t);
    if s'.txns == s.txns {
      SameRows(s, s');
    } else {
      OneRow(s, s', s.threads[t].txn, s.txns[s.threads[t].txn].(status := Expired));
    }
  }

  lemma OtherEndpointMoves(w: World, s: State, t: Thread, code: Id, id: Id, rp: Id)
    ensures RowsMove(s, CibaGrantReads(s, t, id, rp))
    ensures RowsMove(s, PollReadsStash(s, t)) && RowsMove(s, PollReadsBinding(w, s, t))
    ensures RowsMove(s, PollInserts(s, t, code)) && RowsMove(s, CodeGrantConsumes(s, t))
  {
    hide RowsMove, Record, Stop, Goto;
    Frames.Tables(t);
    SameRows(s, CibaGrantReads(s, t, id, rp));
    SameRows(s, PollReadsStash(s, t));
    SameRows(s, PollReadsBinding(w, s, t));
    SameRows(s, PollInserts(s, t, code));
    SameRows(s, CodeGrantConsumes(s, t));
  }

  lemma ConsumeMoves(s: State, t: Thread)
    ensures RowsMove(s, CibaGrantConsumes(s, t)) && RowsMove(s, PollConsumes(s, t))
  {
    hide RowsMove, Redeem;
    SameRows(s, s);
    if t in s.threads && s.threads[t].CibaCas? {
      var CibaCas(id, _, grant, rp) := s.threads[t];
      RedeemMoves(s, t, id, grant, Mint(id, grant, None, |s.log|, rp));
    }
    if t in s.threads && s.threads[t].PollCas? {
      var PollCas(id, grant, stash, expiresAt) := s.threads[t];
      RedeemMoves(s, t, id, grant, PollInsert(id, grant, stash, expiresAt, |s.log|));
    }
  }

  lemma EndpointMoves(w: World, s: State, step: EndpointStep)
    ensures RowsMove(s, ApplyEndpoint(w, s, step))
  {
    hide RowsMove, PollReadsStash, PollReadsBinding, PollInserts, CodeGrantConsumes, CibaGrantConsumes, PollConsumes,
      CibaGrantExpires, CibaGrantReads;
    if Frames.PlainEndpoint(step) {
      Frames.EndpointPlain(w, s, step);
      hide ApplyEndpoint;
      SameRows(s, ApplyEndpoint(w, s, step));
    } else {
      ExpireMoves(s, step.t);
      ConsumeMoves(s, step.t);
      var id := if step.PollInsertStep? || step.CibaReadStep? then step.id else "";
      OtherEndpointMoves(w, s, step.t, id, id, if step.CibaReadStep? then step.rp else "");
    }
  }

  /** Under any interleaving, one step moves a status only along the allowed edges. */
  lemma StatusMoves(w: World, steps: seq<Step>, step: Step)
    ensures RowsMove(Exec(w, steps), Apply(w, Exec(w, steps), step))
  {
    hide Inv, RowsMove, ApplyRequest, ApplyHandler, ApplyEndpoint, Exec;
    ExecInv(w, steps);
    match step
    case Around(st) => RequestMoves(w, Exec(w, steps), st);
    case Handle(st) => HandlerMoves(w, Exec(w, steps), st);
    case Endpoint(st) => EndpointMoves(w, Exec(w, steps), st);
  }

  predicate Later(a: TxnStatus, b: TxnStatus) { a == b || a == Pending || (a == Approved && b == Consumed) }

  lemma {:induction false} StatusLater(w: World, steps: seq<Step>, k: nat, id: Id)
    requires k <= |steps| && id in Exec(w, steps[..k]).txns
    ensures id in Exec(w, steps).txns && Later(Exec(w, steps[..k]).txns[id].status, Exec(w, steps).txns[id].status)
    decreases |steps| - k
  {
    hide Exec, Apply;
    if k == |steps| {
      assert steps[..k] == steps;
    } else {
      ExecStep(w, steps, k);
      StatusMoves(w, steps[..k], steps[k]);
      StatusLater(w, steps, k + 1, id);
    }
  }

  /** Once denied or expired, a transaction yields no token, before or after, in any continuation of the run. */
  lemma RefusedYieldsNoToken(w: World, steps: seq<Step>, k: nat, id: Id, i: nat)
    requires k <= |steps| && id in Exec(w, steps[..k]).txns && Exec(w, steps[..k]).txns[id].status in {Denied, Expired}
    requires i < |Exec(w, steps).log| && Exec(w, steps).log[i].Token?
    ensures Exec(w, steps).log[i].txn != id
  {
    hide Exec;
    StatusLater(w, steps, k, id);
    if Exec(w, steps).log[i].txn == id { TokenConsumesTransaction(w, steps, i); }
  }

  /** A row that stands approved, or was consumed, was set by a decision with all its evidence. */
  lemma ApprovedRowsWereDecided(w: World, steps: seq<Step>, id: Id)
    requires id in Exec(w, steps).txns && Exec(w, steps).txns[id].status in {Approved, Consumed}
    ensures var s := Exec(w, steps);
      && id in s.approvals && s.approvals[id] < |s.log| && s.log[s.approvals[id]].Finished?
      && var done := s.approvals[id];
         var ev, req := EvidenceOf(s.log, done), s.log[done].req;
         && req.purpose == CibaApprove(id) && s.txns[id].binding == Some(req.binding)
         && Proved(s.log, ev, req) && Agreed(s.log, ev, req) && Reverified(w, s.log, ev, req)
         && Entitled(s.log, ev, req)
         && s.txns[id].fixed == s.log[ev.read].row.fixed && s.txns[id].resolvedAt == Some(s.log[ev.read].start)
  {
    hide Inv, Exec, EvidenceOf, Agreed, Reverified, StepUpAnswered;
    var s := Exec(w, steps);
    ExecInv(w, steps);
    InvTxn(w, s, id);
    var done := s.approvals[id];
    FinishedEvidence(w, s, done);
    BindOf(w, s, done);
    InvEntry(w, s, EvidenceOf(s.log, done).read);
  }

  // ------------------------------------------------- where things come from

  /** Transaction `id` was created by an authorize request with this PKCE challenge and redirect URI. */
  predicate SentWith(s: State, id: Id, stash: Stash) {
    id in s.txns && s.txns[id].fixed.flow == CodeFlow && s.txns[id].fixed.sent == stash
  }

  /** Entry `i` minted a session for `citizen` on `binding`. */
  predicate MintedAt(log: seq<Event>, i: int, citizen: Id, binding: Id) {
    && 0 <= i < |log| && log[i].Finished? && log[i].req.purpose.Login? && log[i].req.binding == binding
    && log[i].bind < |log| && log[log[i].bind].BindRead? && log[log[i].bind].found.fixed.citizen == citizen
  }

  ghost predicate LoggedIn(log: seq<Event>, n: int, citizen: Id, binding: Id) {
    exists i :: i < n && MintedAt(log, i, citizen, binding)
  }

  predicate PcOrigin(s: State, pc: Pc) {
    match pc
    case Stashing(id, stash) => SentWith(s, id, stash)
    case Expiring(id) => id in s.txns && s.txns[id].fixed.expiresAt <= s.clock
    case PollBind(id, _, stash, _) => SentWith(s, id, stash)
    case PollCas(id, _, stash, _) => SentWith(s, id, stash)
    case PollInsert(id, _, stash, _, _) => SentWith(s, id, stash)
    case Handling(stage, _, _, citizen, session, _, _) => stage == ReadTxn ==> (citizen, session) in s.sessions
    case _ => true
  }

  ghost predicate Origins(s: State) {
    && (forall id | id in s.txns && s.txns[id].status == Expired :: s.txns[id].fixed.expiresAt <= s.clock)
    && (forall id | id in s.stashes :: SentWith(s, id, s.stashes[id]))
    && (forall c | c in s.codes :: SentWith(s, s.codes[c].txn, s.codes[c].stash))
    && (forall t | t in s.threads :: PcOrigin(s, s.threads[t]))
    && (forall x | x in s.sessions :: LoggedIn(s.log, |s.log|, x.0, x.1))
    && (forall i | 0 <= i < |s.log| && s.log[i].TxnRead? :: LoggedIn(s.log, i, s.log[i].citizen, s.log[i].req.binding))
  }

  /** The clock does not go back, and a row becomes expired only once its time has come. */
  predicate Expiries(s: State, s': State) {
    && s.clock <= s'.clock
    && forall id | id in s'.txns && s'.txns[id].status == Expired ::
         (id in s.txns && s.txns[id].status == Expired) || s'.txns[id].fixed.expiresAt <= s'.clock
  }

  /** What a step must say about what it wrote, for origins to be kept. */
  ghost predicate Sourced(s: State, s': State, t: Thread) {
    && Expiries(s, s')
    && (forall id | id in s'.stashes ::
        (id in s.stashes && s'.stashes[id] == s.stashes[id]) || SentWith(s', id, s'.stashes[id]))
    && (forall c | c in s'.codes ::
          || (c in s.codes && s'.codes[c].txn == s.codes[c].txn && s'.codes[c].stash == s.codes[c].stash)
          || SentWith(s', s'.codes[c].txn, s'.codes[c].stash))
    && (forall u | u in s'.threads && u != t :: u in s.threads && s'.threads[u] == s.threads[u])
    && (t in s'.threads ==> (t in s.threads && s'.threads[t] == s.threads[t]) || PcOrigin(s', s'.threads[t]))
    && s.sessions <= s'.sessions
    && (forall x | x in s'.sessions :: x in s.sessions || LoggedIn(s'.log, |s'.log|, x.0, x.1))
    && (forall i | |s.log| <= i < |s'.log| && s'.log[i].TxnRead? ::
          LoggedIn(s'.log, i, s'.log[i].citizen, s'.log[i].req.binding))
  }

  lemma LoggedInLater(log: seq<Event>, log': seq<Event>, n: int, m: int, citizen: Id, binding: Id)
    requires log <= log' && n <= m && LoggedIn(log, n, citizen, binding)
    ensures LoggedIn(log', m, citizen, binding)
  {
    var i :| i < n && MintedAt(log, i, citizen, binding);
    assert MintedAt(log', i, citizen, binding);
  }

  lemma OriginsKept(s: State, s': State, t: Thread)
    requires Origins(s) && RowsMove(s, s') && s.log <= s'.log && Sourced(s, s', t)
    ensures Origins(s')
  {
    hide LoggedIn;
    forall x | x in s'.sessions ensures LoggedIn(s'.log, |s'.log|, x.0, x.1) {
      if x in s.sessions { LoggedInLater(s.log, s'.log, |s.log|, |s'.log|, x.0, x.1); }
    }
    forall i | 0 <= i < |s'.log| && s'.log[i].TxnRead?
      ensures LoggedIn(s'.log, i, s'.log[i].citizen, s'.log[i].req.binding)
    {
      if i < |s.log| { LoggedInLater(s.log, s'.log, i, i, s.log[i].citizen, s.log[i].req.binding); }
    }
  }

  lemma PlainSourced(s: State, s': State, t: Thread)
    requires Frames.Plain(s, s', t)
    ensures Sourced(s, s', t)
  {
  }

  /** A step that only ends its thread, or writes its last entry. */
  lemma LastSourced(s: State, s': State, t: Thread)
    requires s'.stashes == s.stashes && s'.codes == s.codes && s'.threads == s.threads - {t}
    requires s.sessions <= s'.sessions
    requires Expiries(s, s')
    requires forall x | x in s'.sessions :: x in s.sessions || LoggedIn(s'.log, |s'.log|, x.0, x.1)
    requires s.log <= s'.log && forall i | |s.log| <= i < |s'.log| :: !s'.log[i].TxnRead?
    ensures Sourced(s, s', t)
  {
    hide LoggedIn;
  }

  lemma RecordSourced(s: State, s1: State, t: Thread, e: Event, next: Option<Pc>)
    requires s1.stashes == s.stashes && s1.sessions == s.sessions && s1.threads == s.threads && s1.log == s.log
    requires Expiries(s, s1)
    requires forall c | c in s1.codes ::
               || (c in s.codes && s1.codes[c].txn == s.codes[c].txn && s1.codes[c].stash == s.codes[c].stash)
               || SentWith(s1, s1.codes[c].txn, s1.codes[c].stash)
    requires !e.TxnRead? && (next.Some? ==> PcOrigin(s1, next.value))
    ensures Sourced(s, Record(s1, t, e, next), t)
  {
    hide LoggedIn;
  }

  /** Writing transactions, bindings or challenges needs no source. */
  lemma StopSourced(s: State, s1: State, t: Thread)
    requires s1.stashes == s.stashes && s1.codes == s.codes && s1.sessions == s.sessions
    requires s1.threads == s.threads && s1.log == s.log && Expiries(s, s1)
    ensures Sourced(s, s1, t) && Sourced(s, Stop(s1, t), t)
  {
    hide LoggedIn;
  }

  lemma GotoSourced(s: State, s1: State, t: Thread, pc: Pc)
    requires s1.stashes == s.stashes && s1.codes == s.codes && s1.sessions == s.sessions
    requires s1.threads == s.threads && s1.log == s.log && PcOrigin(s1, pc) && Expiries(s, s1)
    ensures Sourced(s, Goto(s1, t, pc), t)
  {
    hide LoggedIn;
  }

  lemma CreateSourced(s: State, t: Thread, id: Id, fixed: Request)
    ensures Sourced(s, Create(s, t, id, fixed), t)
  {
    hide Sourced, Goto;
    StopSourced(s, s, t);
    if id !in s.used && ColonFree(id) && t !in s.threads {
      var s1 := s.(txns := s.txns[id := Txn(fixed, Pending, None, None)], used := s.used + {id});
      StopSourced(s, s1, t);
      if fixed.flow == CodeFlow { GotoSourced(s, s1, t, Stashing(id, fixed.sent)); }
    }
  }

  lemma StashSourced(s: State, t: Thread, id: Id)
    requires Origins(s)
    ensures Sourced(s, PutStash(s, t), t)
    ensures Sourced(s, s.(stashes := s.stashes - {id}), 0)
  {
    hide LoggedIn;
  }

  lemma RequestSourced(w: World, s: State, step: RequestStep)
    requires Origins(s)
    ensures Sourced(s, ApplyRequest(w, s, step), Frames.RequestThread(step))
  {
    hide Sourced, Origins, Create, PutStash;
    if Frames.PlainRequest(step) {
      Frames.RequestPlain(w, s, step);
      hide ApplyRequest;
      PlainSourced(s, ApplyRequest(w, s, step), Frames.RequestThread(step));
    } else if step.CreateStep? {
      CreateSourced(s, step.t, step.id, step.fixed);
    } else {
      StashSourced(s, Frames.RequestThread(step), if step.DropStashStep? then step.id else "");
    }
  }

  lemma LoginMints(s: State, s': State, t: Thread)
    requires t in s.threads && s.threads[t].Handling? && s.threads[t].req.purpose.Login?
    requires IsBindRead(s, s.threads[t].bind)
    requires s'.log == s.log + [Finished(s.threads[t].req, s.threads[t].at, s.threads[t].bind, s.clock)]
    ensures LoggedIn(s'.log, |s'.log|, s.log[s.threads[t].bind].found.fixed.citizen, s.threads[t].req.binding)
  {
    assert MintedAt(s'.log, |s.log|, s.log[s.threads[t].bind].found.fixed.citizen, s.threads[t].req.binding);
  }

  lemma EffectSourced(s: State, t: Thread, pc: Pc, id: Id, status: TxnStatus)
    requires pc.Handling? && pc.bind >= 0 && status in {Approved, Denied}
    ensures Sourced(s, Decide(s, t, pc, id, status), t)
    ensures Sourced(s, Activate(s, t, pc), t)
  {
    hide Record, Stop, Sourced;
    StopSourced(s, s, t);
    var done := Finished(pc.req, pc.at, pc.bind, s.clock);
    if id in s.txns && s.txns[id].status == Pending {
      var row := s.txns[id].(status := status, binding := Some(pc.req.binding), resolvedAt := Some(pc.start));
      var approvals := if status == Approved then s.approvals[id := |s.log|] else s.approvals;
      RecordSourced(s, s.(txns := s.txns[id := row], approvals := approvals), t, done, None);
    }
    if pc.req.binding in s.bindings {
      var row := s.bindings[pc.req.binding].(status := Active, activatedAt := Some(s.clock));
      RecordSourced(s, s.(bindings := s.bindings[pc.req.binding := row]), t, done, None);
    }
  }

  lemma MintSourced(s: State, t: Thread, pc: Pc)
    requires t in s.threads && pc == s.threads[t] && pc.Handling? && pc.req.purpose.Login? && IsBindRead(s, pc.bind)
    ensures Sourced(s, MintSession(s, t, pc), t)
  {
    hide LoggedIn, Sourced;
    LoginMints(s, MintSession(s, t, pc), t);
    LastSourced(s, MintSession(s, t, pc), t);
  }

  lemma FinishSourced(s: State, t: Thread)
    ensures Sourced(s, HandlerFinishes(s, t), t)
  {
    hide Sourced, Decide, Activate, MintSession;
    Unmoved(s, t);
    if t in s.threads && s.threads[t].Handling? && s.threads[t].stage == Finish && IsBindRead(s, s.threads[t].bind) {
      var pc := s.threads[t];
      match pc.req.purpose
      case CibaApprove(id) => EffectSourced(s, t, pc, id, Approved);
      case CibaDeny(id) => EffectSourced(s, t, pc, id, Denied);
      case Activation => EffectSourced(s, t, pc, "", Denied);
      case Login => MintSourced(s, t, pc);
      case Attestation =>
    }
  }

  lemma Unmoved(s: State, t: Thread)
    ensures Sourced(s, s, t)
  {
  }

  lemma ReadTxnSourced(s: State, t: Thread)
    requires Origins(s)
    ensures Sourced(s, DecisionReadsTxn(s, t), t)
  {
    hide LoggedIn, Sourced, Origins;
    Unmoved(s, t);
    if t in s.threads && s.threads[t].Handling? && s.threads[t].stage == ReadTxn && s.threads[t].req.purpose.IsCiba() {
      var s' := DecisionReadsTxn(s, t);
      if |s'.log| > |s.log| { ReadSourced(s, s', t, s'.log[|s.log|]); } else { LastSourced(s, s', t); }
    }
  }

  lemma ReadSourced(s: State, s': State, t: Thread, e: Event)
    requires Origins(s) && t in s.threads && s.threads[t].Handling? && s.threads[t].stage == ReadTxn && e.TxnRead?
    requires e.citizen == s.threads[t].citizen && e.req.binding == s.threads[t].session
    requires s'.stashes == s.stashes && s'.codes == s.codes && s'.sessions == s.sessions && s'.log == s.log + [e]
    requires Expiries(s, s')
    requires s'.threads == s.threads[t := s.threads[t].(stage := ReadBinding, at := |s.log|)]
    ensures Sourced(s, s', t)
  {
    hide LoggedIn;
    LoggedInLater(s.log, s'.log, |s.log|, |s.log|, e.citizen, e.req.binding);
  }

  lemma HandlerSourced(w: World, s: State, step: HandlerStep)
    requires Origins(s)
    ensures Sourced(s, ApplyHandler(w, s, step), step.t)
  {
    hide LoggedIn, HandlerFinishes, DecisionReadsTxn, Sourced, Origins;
    if Frames.PlainHandler(step) {
      Frames.HandlerPlain(w, s, step);
      hide ApplyHandler;
      PlainSourced(s, ApplyHandler(w, s, step), step.t);
    } else if step.FinishStep? {
      FinishSourced(s, step.t);
    } else if step.ReadTxnStep? {
      ReadTxnSourced(s, step.t);
    } else {
      StartSourced(s, step.t, step.citizen, step.session, step.req);
    }
  }

  lemma StartSourced(s: State, t: Thread, citizen: Id, session: Id, req: Req)
    ensures Sourced(s, StartDecision(s, t, citizen, session, req), t)
  {
    hide Sourced, Goto;
    StopSourced(s, s, t);
    if Guard(s, citizen, session) {
      GotoSourced(s, s, t, Handling(ReadTxn, req, s.clock, citizen, session, -1, -1));
    }
  }

  lemma PollSourced(w: World, s: State, t: Thread)
    requires Origins(s)
    ensures Sourced(s, PollReadsStash(s, t), t)
    ensures Sourced(s, PollReadsBinding(w, s, t), t)
  {
    hide LoggedIn, GrantOf, Sourced, Stop, Goto;
    StopSourced(s, s, t);
    if t in s.threads && s.threads[t].PollStash? {
      var PollStash(id, row, now) := s.threads[t];
      if id in s.stashes { GotoSourced(s, s, t, PollBind(id, row, s.stashes[id], now)); }
    }
    if t in s.threads && s.threads[t].PollBind? {
      var PollBind(id, row, stash, now) := s.threads[t];
      if row.binding.Some? && row.binding.value in s.bindings {
        var grant := GrantOf(row, s.bindings[row.binding.value].fixed.assurance, now);
        GotoSourced(s, s, t, PollCas(id, grant, stash, now + w.codeTtl));
      }
    }
  }

  lemma RedeemSourced(s: State, t: Thread, id: Id, grant: Grant, next: Pc)
    requires next.Mint? || (next.PollInsert? && SentWith(s, next.txn, next.stash))
    ensures Sourced(s, Redeem(s, t, id, grant, next), t)
  {
    hide Sourced, Record, Stop;
    StopSourced(s, s, t);
    if id in s.txns && s.txns[id].status == Approved {
      var cause := if id in s.approvals then s.approvals[id] else 0;
      var s1 := s.(txns := s.txns[id := s.txns[id].(status := Consumed)]);
      RecordSourced(s, s1, t, Redeemed(id, cause, grant), Some(next));
    }
  }

  lemma ConsumeSourced(s: State, t: Thread)
    requires Origins(s)
    ensures Sourced(s, CibaGrantConsumes(s, t), t)
    ensures Sourced(s, PollConsumes(s, t), t)
  {
    hide LoggedIn, Redeem, Sourced;
    Unmoved(s, t);
    if t in s.threads && s.threads[t].CibaCas? {
      var CibaCas(id, _, grant, rp) := s.threads[t];
      RedeemSourced(s, t, id, grant, Mint(id, grant, None, |s.log|, rp));
    }
    if t in s.threads && s.threads[t].PollCas? {
      var PollCas(id, grant, stash, expiresAt) := s.threads[t];
      RedeemSourced(s, t, id, grant, PollInsert(id, grant, stash, expiresAt, |s.log|));
    }
  }

  lemma InsertSourced(s: State, t: Thread, code: Id)
    requires Origins(s)
    ensures Sourced(s, PollInserts(s, t, code), t)
  {
    hide Sourced, LoggedIn, Record, Stop;
    StopSourced(s, s, t);
    if t in s.threads && s.threads[t].PollInsert? && code !in s.used {
      var PollInsert(id, grant, stash, expiresAt, at) := s.threads[t];
      assert PcOrigin(s, s.threads[t]);
      var row := Code(id, |s.log|, grant, stash, expiresAt, false);
      RecordSourced(s, s.(codes := s.codes[code := row], used := s.used + {code}), t, CodeIssued(code, at, row), None);
    }
  }

  lemma CodeSourced(s: State, t: Thread)
    ensures Sourced(s, CodeGrantConsumes(s, t), t)
  {
    hide Sourced, Record, Stop;
    StopSourced(s, s, t);
    if t in s.threads && s.threads[t].CodeCas? {
      var CodeCas(code, presented, now, rp) := s.threads[t];
      if code in s.codes && !s.codes[code].consumed {
        var row := s.codes[code];
        RecordSourced(s, s.(codes := s.codes[code := row.(consumed := true)]), t,
          CodeRedeemed(code, row.issuedAt, presented, now),
              Some(Mint(row.txn, row.grant, row.stash.oidcNonce, |s.log|, rp)));
      }
    }
  }

  lemma ExpireSourced(s: State, t: Thread)
    requires Origins(s)
    ensures Sourced(s, CibaGrantExpires(s, t), t)
  {
    hide Sourced, Stop, LoggedIn;
    StopSourced(s, s, t);
    if t in s.threads && s.threads[t].Expiring? && s.threads[t].txn in s.txns {
      var id := s.threads[t].txn;
      assert PcOrigin(s, s.threads[t]);
      StopSourced(s, s.(txns := s.txns[id := s.txns[id].(status := Expired)]), t);
    }
  }

  lemma CibaReadSourced(s: State, t: Thread, id: Id, rp: Id)
    ensures Sourced(s, CibaGrantReads(s, t, id, rp), t)
  {
    hide Sourced, Goto;
    StopSourced(s, s, t);
    if t !in s.threads && id in s.txns {
      if s.txns[id].fixed.expiresAt <= s.clock { GotoSourced(s, s, t, Expiring(id)); }
      GotoSourced(s, s, t, CibaBind(id, s.txns[id], s.clock, rp));
    }
  }

  lemma EndpointSourced(w: World, s: State, step: EndpointStep)
    requires Origins(s)
    ensures Sourced(s, ApplyEndpoint(w, s, step), step.t)
  {
    hide Sourced, Origins, PollReadsStash, PollReadsBinding, CibaGrantConsumes, PollConsumes, PollInserts,
      CodeGrantConsumes, CibaGrantExpires, CibaGrantReads;
    if Frames.PlainEndpoint(step) {
      Frames.EndpointPlain(w, s, step);
      hide ApplyEndpoint;
      PlainSourced(s, ApplyEndpoint(w, s, step), step.t);
    } else {
      match step
      case PollStashStep(t) => PollSourced(w, s, t);
      case PollBindStep(t) => PollSourced(w, s, t);
      case CibaConsumeStep(t) => ConsumeSourced(s, t);
      case PollConsumeStep(t) => ConsumeSourced(s, t);
      case PollInsertStep(t, id) => InsertSourced(s, t, id);
      case CodeConsumeStep(t) => CodeSourced(s, t);
      case CibaExpireStep(t) => ExpireSourced(s, t);
      case CibaReadStep(t, id, rp) => CibaReadSourced(s, t, id, rp);
    }
  }

  // -------------------------------------------------------- for every run

  lemma StepSourced(w: World, s: State, step: Step) returns (t: Thread)
    requires Origins(s)
    ensures Sourced(s, Apply(w, s, step), t)
  {
    hide Origins, Sourced, ApplyRequest, ApplyHandler, ApplyEndpoint;
    match step
    case Around(st) => RequestSourced(w, s, st); t := Frames.RequestThread(st);
    case Handle(st) => HandlerSourced(w, s, st); t := st.t;
    case Endpoint(st) => EndpointSourced(w, s, st); t := st.t;
  }

  lemma {:induction false} ExecOrigins(w: World, steps: seq<Step>)
    ensures Origins(Exec(w, steps))
  {
    hide Apply, Inv, RowsMove, Sourced, Witnessed;
    if steps != [] {
      var s, step := Exec(w, steps[..|steps| - 1]), steps[|steps| - 1];
      ExecOrigins(w, steps[..|steps| - 1]);
      ExecInv(w, steps[..|steps| - 1]);
      StatusMoves(w, steps[..|steps| - 1], step);
      StepTells(w, s, step);
      var t := StepSourced(w, s, step);
      OriginsKept(s, Apply(w, s, step), t);
    }
  }

  /** A transaction stands expired only once its time is over. */
  lemma ExpiredOnlyInTime(w: World, steps: seq<Step>, id: Id)
    requires id in Exec(w, steps).txns && Exec(w, steps).txns[id].status == Expired
    ensures Exec(w, steps).txns[id].fixed.expiresAt <= Exec(w, steps).clock
  {
    hide Exec;
    ExecOrigins(w, steps);
  }

  /**
   * A code is redeemed only before it expires, and only by presenting the verifier whose hash, and the redirect URI,
   * that the authorize request of its transaction sent. The code carries the grant of the one redemption of that
   * transaction.
   */
  lemma CodesAreBoundToTheirRequest(w: World, steps: seq<Step>, i: nat)
    requires i < |Exec(w, steps).log| && Exec(w, steps).log[i].CodeRedeemed?
    ensures var s := Exec(w, steps);
      && s.log[i].cause < i && s.log[s.log[i].cause].CodeIssued? && s.log[s.log[i].cause].code == s.log[i].code
      && var row := s.log[s.log[i].cause].issued;
         && row.txn in s.txns && s.txns[row.txn].fixed.flow == CodeFlow
         && row.stash == s.txns[row.txn].fixed.sent && s.log[i].presented == row.stash.pkce
         && s.log[i].at < row.expiresAt
         && 0 <= s.log[s.log[i].cause].prev < s.log[i].cause
         && s.log[s.log[s.log[i].cause].prev].Redeemed? && s.log[s.log[s.log[i].cause].prev].txn == row.txn
         && s.log[s.log[s.log[i].cause].prev].grant == row.grant
  {
    hide Inv, Exec;
    var s := Exec(w, steps);
    ExecInv(w, steps);
    ExecOrigins(w, steps);
    InvEntry(w, s, i);
    InvEntry(w, s, s.log[i].cause);
    InvCode(w, s, s.log[i].code);
    assert SentWith(s, s.codes[s.log[i].code].txn, s.codes[s.log[i].code].stash);
  }

  /**
   * A token minted through a code carries the nonce of the authorize request of its transaction; one minted from the
   * transaction itself carries none.
   */
  lemma TokensCarryTheirNonce(w: World, steps: seq<Step>, i: nat)
    requires i < |Exec(w, steps).log| && Exec(w, steps).log[i].Token?
    ensures var s := Exec(w, steps);
      var Token(txn, prev, _, oidcNonce, _) := s.log[i];
      && 0 <= prev < i && txn in s.txns
      && if s.log[prev].Redeemed? then oidcNonce == None
         else
           && s.log[prev].CodeRedeemed? && s.txns[txn].fixed.flow == CodeFlow
           && oidcNonce == s.txns[txn].fixed.sent.oidcNonce
  {
    hide Inv, Exec;
    var s := Exec(w, steps);
    ExecInv(w, steps);
    InvEntry(w, s, i);
    var prev := s.log[i].prev;
    InvEntry(w, s, prev);
    if s.log[prev].CodeRedeemed? { CodesAreBoundToTheirRequest(w, steps, prev); }
  }

  /**
   * No decision without a login: whoever decided a transaction had earlier logged in, as the same citizen on the same
   * binding, and that login answered its own challenge and was itself re-verified.
   */
  lemma DecisionsFollowLogins(w: World, steps: seq<Step>, done: nat) returns (login: nat)
    requires done < |Exec(w, steps).log| && Exec(w, steps).log[done].Finished?
    requires Exec(w, steps).log[done].req.purpose.IsCiba()
    ensures var log := Exec(w, steps).log;
      var ev := EvidenceOf(log, done);
      && 0 <= ev.bind < |log| && log[ev.bind].BindRead?
      && login < done && MintedAt(log, login, log[ev.bind].found.fixed.citizen, log[done].req.binding)
      && Proved(log, EvidenceOf(log, login), log[login].req)
      && Reverified(w, log, EvidenceOf(log, login), log[login].req)
  {
    hide Inv, Exec, EvidenceOf, Agreed, StepUpAnswered;
    var s := Exec(w, steps);
    ExecInv(w, steps);
    ExecOrigins(w, steps);
    FinishedEvidence(w, s, done);
    var ev := EvidenceOf(s.log, done);
    BindOf(w, s, done);
    InvEntry(w, s, ev.read);
    assert s.log[ev.read].TxnRead? && Origins(s);
    login :| login < ev.read && MintedAt(s.log, login, s.log[ev.read].citizen, s.log[ev.read].req.binding);
    FinishedEvidence(w, s, login);
  }
}
