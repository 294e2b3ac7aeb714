/** Every step of every handler keeps the protocol invariant, whatever the other threads did in between. */
module ProtocolPreserved {
  import opened Common
  import opened Challenge
  import opened Protocol
  import opened ProtocolInvariant

  // ----------------------------------------------------------- what only grows

  /** History is kept, immutable columns stay, approvals stay. */
  ghost predicate Grows(s: State, s': State) {
    && |s.log| <= |s'.log| && (forall i :: 0 <= i < |s.log| ==> s'.log[i] == s.log[i])
    && s.used <= s'.used
    && (forall id | id in s.txns ::
          && id in s'.txns && s'.txns[id].fixed == s.txns[id].fixed
          && (WasApproved(s.txns[id]) ==>
                && WasApproved(s'.txns[id])
                && s'.txns[id].binding == s.txns[id].binding && s'.txns[id].resolvedAt == s.txns[id].resolvedAt
                && (id in s.approvals ==> id in s'.approvals && s'.approvals[id] == s.approvals[id])))
    && (forall b | b in s.bindings :: b in s'.bindings && s'.bindings[b].fixed == s.bindings[b].fixed)
    && (forall c | c in s.codes :: c in s'.codes && s'.codes[c].(consumed := false) == s.codes[c].(consumed := false))
  }

  lemma ApprovalStable(s: State, s': State, cause: int, id: Id)
    requires Grows(s, s') && Approval(s.log, cause, id).Some?
    ensures Approval(s'.log, cause, id) == Approval(s.log, cause, id)
  {
  }

  lemma PcStable(s: State, s': State, pc: Pc)
    requires Grows(s, s') && PcOk(s, pc)
    ensures PcOk(s', pc)
  {
    if pc.CibaCas? || pc.PollCas? { ApprovalStable(s, s', s.approvals[pc.txn], pc.txn); }
  }

  lemma ApprovedRowStable(s: State, s': State, id: Id)
    requires Grows(s, s') && id in s.txns && WasApproved(s.txns[id]) && ApprovedRow(s, id, s.txns[id])
    ensures ApprovedRow(s', id, s'.txns[id])
  {
    ApprovalStable(s, s', s.approvals[id], id);
  }

  // ------------------------------------------------- the invariant, one row at a time

  lemma InvPc(w: World, s: State, t: Thread)
    requires Inv(w, s) && t in s.threads
    ensures PcOk(s, s.threads[t]) && -1 <= Held(s.threads[t]) < |s.log|
  {
  }

  lemma InvTxn(w: World, s: State, id: Id)
    requires Inv(w, s) && id in s.txns
    ensures id in s.used && ColonFree(id) && (WasApproved(s.txns[id]) ==> ApprovedRow(s, id, s.txns[id]))
  {
  }

  lemma InvCode(w: World, s: State, code: Id)
    requires Inv(w, s) && code in s.codes
    ensures CodeRowOk(s, code)
  {
  }

  lemma InvRecord(w: World, s: State, c: Id)
    requires Inv(w, s) && c in s.challenges
    ensures RecordOk(s, c, s.challenges[c])
  {
  }

  lemma InvEntry(w: World, s: State, i: nat)
    requires Inv(w, s) && i < |s.log|
    ensures EventOk(w, s.log[..i], s.log[i]) && SnapshotOk(s, s.log[i]) && Spent(s, i, s.log[i])
  {
  }

  // --------------------------------------------------- one lemma for all steps

  /** Tables of `s'` agree with its log; a step proves this from what it wrote. */
  ghost predicate Tables(s: State, s': State) {
    && TxnsOk(s') && CodesOk(s') && ChallengesOk(s')
    && (forall i :: 0 <= i < |s.log| ==> Spent(s', i, s.log[i]))
  }

  /** Only thread `t` moved, if any; it holds what it held before, nothing, or the new entry. */
  ghost predicate Moves(s: State, s': State, t: Thread) {
    && (forall u | u in s'.threads && u != t :: u in s.threads && s'.threads[u] == s.threads[u])
    && (t in s'.threads && !(t in s.threads && s'.threads[t] == s.threads[t]) ==>
          && PcOk(s', s'.threads[t])
          && var h := Held(s'.threads[t]);
             h == -1 || (|s.log| < |s'.log| && h == |s.log|)
             || (|s.log| == |s'.log| && t in s.threads && h == Held(s.threads[t])))
  }

  /** A step without a log entry. */
  lemma Quiet(w: World, s: State, s': State, t: Thread)
    requires Inv(w, s) && Grows(s, s') && s'.log == s.log && Tables(s, s') && Moves(s, s', t)
    ensures Inv(w, s')
  {
    hide PcOk, Held, Uses, Clash, EventOk, Spent, TxnsOk, CodesOk, ChallengesOk;
    forall i | 0 <= i < |s.log| ensures SnapshotOk(s', s'.log[i]) { assert SnapshotOk(s, s.log[i]); }
    forall u | u in s'.threads ensures PcOk(s', s'.threads[u]) {
      if u in s.threads && s'.threads[u] == s.threads[u] { PcStable(s, s', s.threads[u]); }
    }
  }

  /** A step that appends entry `e`, using up at most what thread `t` held. */
  lemma Advance(w: World, s: State, s': State, t: Thread, e: Event)
    requires Inv(w, s) && Grows(s, s') && s'.log == s.log + [e] && Tables(s, s') && Moves(s, s', t)
    requires EventOk(w, s.log, e) && SnapshotOk(s', e) && Spent(s', |s.log|, e)
    requires forall i :: 0 <= i < |s.log| ==> !Clash(s.log[i], e)
    requires Uses(e) == -1 || UsesUp(s, s', t, e)
    ensures Inv(w, s')
  {
    var n := |s.log|;
    forall i | 0 <= i < |s'.log| ensures EventOk(w, s'.log[..i], s'.log[i]) {
      assert s'.log[..i] == s.log[..i];
      if i == n { assert s.log[..n] == s.log; }
    }
    forall i | 0 <= i < |s'.log| ensures SnapshotOk(s', s'.log[i]) && Spent(s', i, s'.log[i]) {
      if i < n { assert SnapshotOk(s, s.log[i]); }
    }
    forall u | u in s'.threads ensures PcOk(s', s'.threads[u]) {
      if u in s.threads && s'.threads[u] == s.threads[u] { PcStable(s, s', s.threads[u]); }
    }
    AdvanceLinear(s, s', t, e);
  }

  /** Entry `e` uses up what `t` held, and `t` no longer holds it. */
  ghost predicate UsesUp(s: State, s': State, t: Thread, e: Event) {
    && t in s.threads && Uses(e) == Held(s.threads[t])
    && (t in s'.threads ==> Held(s'.threads[t]) == -1 || Held(s'.threads[t]) == |s.log|)
  }

  lemma AdvanceLinear(s: State, s': State, t: Thread, e: Event)
    requires Linear(s) && s'.log == s.log + [e] && Moves(s, s', t)
    requires Uses(e) == -1 || UsesUp(s, s', t, e)
    ensures Linear(s')
  {
    hide PcOk, Held, Uses;
    var n := |s.log|;
    forall i | 0 <= i < |s'.log| ensures -1 <= Uses(s'.log[i]) < i {}
    forall t | t in s'.threads ensures -1 <= Held(s'.threads[t]) < |s'.log| {}
    forall u, v | u in s'.threads && v in s'.threads && u != v
      ensures Held(s'.threads[u]) == -1 || Held(s'.threads[u]) != Held(s'.threads[v])
    {
    }
    forall u, i | u in s'.threads && 0 <= i < |s'.log|
      ensures Held(s'.threads[u]) == -1 || Uses(s'.log[i]) != Held(s'.threads[u])
    {
      if i == n && u != t { assert s'.threads[u] == s.threads[u]; }
    }
    forall i, j | 0 <= i < j < |s'.log| ensures Uses(s'.log[i]) == -1 || Uses(s'.log[i]) != Uses(s'.log[j]) {
      if j == n { assert s'.log[i] == s.log[i]; }
    }
  }

  lemma TxnsKept(w: World, s: State, s': State)
    requires Inv(w, s) && Grows(s, s')
    requires forall id | id in s'.txns ::
               id in s'.used && ColonFree(id) && (WasApproved(s'.txns[id]) ==> id in s.txns && WasApproved(s.txns[id]))
    ensures TxnsOk(s')
  {
    forall id | id in s'.txns && WasApproved(s'.txns[id]) ensures ApprovedRow(s', id, s'.txns[id]) {
      InvTxn(w, s, id);
      ApprovedRowStable(s, s', id);
    }
  }

  lemma TxnsUnchanged(w: World, s: State, s': State)
    requires Inv(w, s) && Grows(s, s') && s'.txns == s.txns
    ensures TxnsOk(s')
  {
    forall id | id in s.txns ensures id in s'.used && ColonFree(id) { InvTxn(w, s, id); }
    TxnsKept(w, s, s');
  }

  lemma CodesKept(w: World, s: State, s': State)
    requires Inv(w, s) && Grows(s, s') && s'.codes.Keys == s.codes.Keys
    ensures CodesOk(s')
  {
    forall c | c in s'.codes ensures CodeRowOk(s', c) { InvCode(w, s, c); }
  }

  lemma ChallengesKept(w: World, s: State, s': State)
    requires Inv(w, s) && Grows(s, s')
    requires forall c | c in s'.challenges :: c in s.challenges && s'.challenges[c] == s.challenges[c]
    ensures ChallengesOk(s')
  {
    forall c | c in s'.challenges ensures RecordOk(s', c, s'.challenges[c]) { InvRecord(w, s, c); }
  }

  /** Final rows stay final and spent challenges stay away, so everything spent stays spent. */
  ghost predicate Settles(s: State, s': State) {
    && (forall c | c in s'.challenges :: c in s.challenges || c !in s.used)
    && (forall id | id in s.txns && s.txns[id].status in {Denied, Consumed} ::
          id in s'.txns && s'.txns[id].status == s.txns[id].status)
    && (forall c | c in s.codes && s.codes[c].consumed :: c in s'.codes && s'.codes[c].consumed)
  }

  lemma SpentKept(w: World, s: State, s': State)
    requires Inv(w, s) && Grows(s, s') && Settles(s, s')
    ensures forall i :: 0 <= i < |s.log| ==> Spent(s', i, s.log[i])
  {
    forall i | 0 <= i < |s.log| ensures Spent(s', i, s.log[i]) { InvEntry(w, s, i); }
  }

  /** Tables that a step left alone, or only relaxed, still agree with the longer log. */
  lemma TablesKept(w: World, s: State, s': State)
    requires Inv(w, s) && Grows(s, s')
    requires s'.txns == s.txns && s'.codes == s.codes
    requires forall c | c in s'.challenges :: c in s.challenges && s'.challenges[c] == s.challenges[c]
    ensures Tables(s, s')
  {
    TxnsUnchanged(w, s, s');
    CodesKept(w, s, s');
    ChallengesKept(w, s, s');
    SpentKept(w, s, s');
  }

  // --------------------------------------------------------- moves and records

  lemma StopKept(w: World, s: State, t: Thread)
    requires Inv(w, s)
    ensures Inv(w, Stop(s, t))
  {
    hide Inv, Tables;
    TablesKept(w, s, Stop(s, t));
    Quiet(w, s, Stop(s, t), t);
  }

  /** A step that only moves its thread, keeping what the thread holds. */
  lemma GotoKept(w: World, s: State, t: Thread, pc: Pc)
    requires Inv(w, s) && PcOk(s, pc)
    requires Held(pc) == -1 || (t in s.threads && Held(pc) == Held(s.threads[t]))
    ensures Inv(w, Goto(s, t, pc))
  {
    hide Inv, Tables;
    var s' := Goto(s, t, pc);
    TablesKept(w, s, s');
    PcStable(s, s', pc);
    hide PcOk;
    Quiet(w, s, s', t);
  }

  /** A step that writes only tables the log does not constrain. */
  lemma WriteKept(w: World, s: State, s': State)
    requires Inv(w, s) && s'.log == s.log && s'.txns == s.txns && s'.codes == s.codes && s'.approvals == s.approvals
    requires s'.threads == s.threads && s.used <= s'.used
    requires forall c | c in s'.challenges :: c in s.challenges && s'.challenges[c] == s.challenges[c]
    requires forall b | b in s.bindings :: b in s'.bindings && s'.bindings[b].fixed == s.bindings[b].fixed
    ensures Inv(w, s')
  {
    hide Inv, Tables, PcOk;
    TablesKept(w, s, s');
    Quiet(w, s, s', 0);
  }

  /** What thread `t` needs in order to write entry `e` and go on to `next`. */
  ghost predicate MayRecord(w: World, s: State, t: Thread, e: Event, next: Option<Pc>) {
    && EventOk(w, s.log, e) && SnapshotOk(s, e) && Spent(s, |s.log|, e)
    && (forall i :: 0 <= i < |s.log| ==> !Clash(s.log[i], e))
    && (Uses(e) == -1 || (t in s.threads && Uses(e) == Held(s.threads[t])))
    && (next.Some? ==> PcOk(Note(s, e), next.value) && Held(next.value) == |s.log|)
  }

  lemma RecordKept(w: World, s: State, t: Thread, e: Event, next: Option<Pc>)
    requires Inv(w, s) && MayRecord(w, s, t, e, next)
    ensures Inv(w, Record(s, t, e, next))
  {
    hide Inv, Tables, EventOk, Clash, Grows, PcOk, Spent, SnapshotOk;
    var s' := Record(s, t, e, next);
    RecordGrows(s, t, e, next);
    TablesKept(w, s, s');
    if next.Some? { PcStable(Note(s, e), s', next.value); }
    assert SnapshotOk(s', e) && Spent(s', |s.log|, e) by { RowsDecide(s, s', |s.log|, e); }
    Advance(w, s, s', t, e);
  }

  lemma RecordGrows(s: State, t: Thread, e: Event, next: Option<Pc>)
    ensures Grows(s, Record(s, t, e, next)) && Grows(Note(s, e), Record(s, t, e, next))
  {
    hide WasApproved;
  }

  lemma RowsDecide(s: State, s': State, i: int, e: Event)
    requires s'.txns == s.txns && s'.bindings == s.bindings && s'.codes == s.codes
    requires s'.challenges == s.challenges && s'.used == s.used
    ensures SnapshotOk(s', e) == SnapshotOk(s, e) && Spent(s', i, e) == Spent(s, i, e)
  {
  }

  // ------------------------------------------------------------- quiet steps

  lemma CreateKept(w: World, s: State, t: Thread, id: Id, fixed: Request)
    requires Inv(w, s)
    ensures Inv(w, Create(s, t, id, fixed))
  {
    hide Inv, Goto;
    if id !in s.used && ColonFree(id) && t !in s.threads {
      var s1 := s.(txns := s.txns[id := Txn(fixed, Pending, None, None)], used := s.used + {id});
      InsertTxnKept(w, s, s1, id, fixed);
      GotoKept(w, s1, t, Stashing(id, fixed.sent));
    }
  }

  lemma InsertTxnKept(w: World, s: State, s': State, id: Id, fixed: Request)
    requires Inv(w, s) && id !in s.used && ColonFree(id)
    requires s' == s.(txns := s.txns[id := Txn(fixed, Pending, None, None)], used := s.used + {id})
    ensures Inv(w, s')
  {
    hide Inv, Tables, Grows, PcOk;
    InsertTxnTables(w, s, s', id, fixed);
    Quiet(w, s, s', 0);
  }

  lemma InsertTxnGrows(s: State, s': State, id: Id, fixed: Request)
    requires id !in s.txns && s' == s.(txns := s.txns[id := Txn(fixed, Pending, None, None)], used := s.used + {id})
    ensures Grows(s, s')
  {
    hide WasApproved;
  }

  lemma InsertTxnTables(w: World, s: State, s': State, id: Id, fixed: Request)
    requires Inv(w, s) && id !in s.used && ColonFree(id)
    requires s' == s.(txns := s.txns[id := Txn(fixed, Pending, None, None)], used := s.used + {id})
    ensures Grows(s, s') && Tables(s, s')
  {
    hide Inv, TxnsOk, CodesOk, ChallengesOk, PcOk, Spent, Grows;
    assert id !in s.txns by { if id in s.txns { InvTxn(w, s, id); } }
    InsertTxnGrows(s, s', id, fixed);
    forall k | k in s'.txns ensures k in s'.used && ColonFree(k) { if k != id { InvTxn(w, s, k); } }
    TxnsKept(w, s, s');
    CodesKept(w, s, s');
    ChallengesKept(w, s, s');
    SpentKept(w, s, s');
  }

  lemma StashKept(w: World, s: State, t: Thread)
    requires Inv(w, s)
    ensures Inv(w, PutStash(s, t))
  {
    hide Inv, Stop;
    if t in s.threads && s.threads[t].Stashing? {
      var s1 := s.(stashes := s.stashes[s.threads[t].txn := s.threads[t].stash]);
      WriteKept(w, s, s1);
      StopKept(w, s1, t);
    }
  }

  lemma EnrolKept(w: World, s: State, t: Thread, id: Id, fixed: BindingKey)
    requires Inv(w, s)
    ensures Inv(w, Enrol(s, t, id, fixed))
  {
    hide Inv, Goto;
    if id !in s.used && id !in s.bindings && t !in s.threads {
      var s1 := s.(bindings := s.bindings[id := Binding(fixed, Waiting, s.clock, None, None)], used := s.used + {id});
      WriteKept(w, s, s1);
      GotoKept(w, s1, t, Issuing(Activation, id));
    }
  }

  lemma ListPendingKept(w: World, s: State, t: Thread, citizen: Id, binding: Id, txn: Id)
    requires Inv(w, s)
    ensures Inv(w, ListPending(s, t, citizen, binding, txn))
  {
    hide Inv, Goto;
    GotoKept(w, s, t, Issuing(CibaApprove(txn), binding));
  }

  lemma LoginChallengeKept(w: World, s: State, t: Thread, binding: Id)
    requires Inv(w, s)
    ensures Inv(w, StartLoginChallenge(s, t, binding))
  {
    hide Inv, Goto;
    GotoKept(w, s, t, Issuing(Login, binding));
  }

  lemma StartHandlerKept(w: World, s: State, t: Thread, req: Req)
    requires Inv(w, s)
    ensures Inv(w, StartHandler(s, t, req))
  {
    hide Inv, Goto;
    if req.purpose.Login? || req.purpose.Activation? {
      GotoKept(w, s, t, Handling(ReadBinding, req, s.clock, "", req.binding, -1, -1));
    }
  }

  lemma StartDecisionKept(w: World, s: State, t: Thread, citizen: Id, session: Id, req: Req)
    requires Inv(w, s)
    ensures Inv(w, StartDecision(s, t, citizen, session, req))
  {
    hide Inv, Goto;
    if req.purpose.IsCiba() && Guard(s, citizen, session) {
      GotoKept(w, s, t, Handling(ReadTxn, req, s.clock, citizen, session, -1, -1));
    }
  }

  // ------------------------------------------------------ signed-request steps

  lemma SignKept(w: World, s: State, e: Event)
    requires Inv(w, s) && (e.Signed? || e.Swept?) && EventOk(w, s.log, e)
    ensures Inv(w, Note(s, e))
  {
    hide Inv, Tables, PcOk, EventOk;
    TablesKept(w, s, Note(s, e));
    hide Grows;
    Advance(w, s, Note(s, e), 0, e);
  }

  lemma IssueKept(w: World, s: State, t: Thread, challenge: Id, nonce: string)
    requires Inv(w, s)
    ensures Inv(w, Issue(s, t, challenge, nonce))
  {
    hide Inv, PcOk;
    if t in s.threads && s.threads[t].Issuing? && challenge !in s.used && ColonFree(challenge) && ColonFree(nonce) {
      var Issuing(purpose, binding) := s.threads[t];
      var stored := StoredPurpose(purpose);
      var e := Issued(stored, challenge, nonce, binding);
      RecordKept(w, s, t, e, None);
      var row := ChallengeRow(stored, nonce, binding, |s.log|);
      InsertChallengeKept(w, Record(s, t, e, None), challenge, row);
    }
  }

  lemma InsertChallengeKept(w: World, s: State, c: Id, row: ChallengeRow)
    requires Inv(w, s) && c !in s.used && row.issuedAt < |s.log|
    requires s.log[row.issuedAt] == Issued(row.purpose, c, row.nonce, row.binding)
    ensures Inv(w, s.(challenges := s.challenges[c := row], used := s.used + {c}))
  {
    hide Inv, TxnsOk, CodesOk, PcOk;
    var s' := s.(challenges := s.challenges[c := row], used := s.used + {c});
    TxnsUnchanged(w, s, s');
    CodesKept(w, s, s');
    SpentKept(w, s, s');
    forall k | k in s'.challenges ensures RecordOk(s', k, s'.challenges[k]) {
      if k != c { InvRecord(w, s, k); }
    }
    hide Grows, Spent, Settles, TxnsOk, CodesOk, ChallengesOk;
    Quiet(w, s, s', 0);
  }

  lemma ReadTxnKept(w: World, s: State, t: Thread)
    requires Inv(w, s)
    ensures Inv(w, DecisionReadsTxn(s, t))
  {
    hide Inv, Stop, Record;
    if t in s.threads && s.threads[t].Handling? && s.threads[t].stage == ReadTxn && s.threads[t].req.purpose.IsCiba() {
      var pc := s.threads[t];
      var id := pc.req.purpose.authReqId;
      StopKept(w, s, t);
      InvPc(w, s, t);
      if id in s.txns && s.txns[id].status == Pending && s.txns[id].fixed.expiresAt > pc.start
         && s.txns[id].fixed.citizen == pc.citizen && pc.req.binding == pc.session
      {
        InvTxn(w, s, id);
        RecordKept(w, s, t, TxnRead(pc.req, pc.start, pc.citizen, s.txns[id]),
          Some(pc.(stage := ReadBinding, at := |s.log|)));
      }
    }
  }

  lemma ReadBindingKept(w: World, s: State, t: Thread)
    requires Inv(w, s)
    ensures Inv(w, HandlerReadsBinding(s, t))
  {
    hide Inv, Stop, Record;
    if t in s.threads && s.threads[t].Handling? && s.threads[t].stage == ReadBinding {
      var pc := s.threads[t];
      StopKept(w, s, t);
      InvPc(w, s, t);
      if pc.req.binding in s.bindings {
        var b := s.bindings[pc.req.binding];
        if b.status == (if pc.req.purpose.Activation? then Waiting else Active)
           && (pc.req.purpose.IsCiba() ==> AlMeets(b.fixed.assurance, s.log[pc.at].row.fixed.requestedAl))
        {
          RecordKept(w, s, t, BindRead(pc.req, pc.at, b),
            Some(pc.(stage := AfterBinding(pc.req.purpose), at := |s.log|, bind := |s.log|)));
        }
      }
    }
  }

  lemma CheckDueKept(w: World, s: State, t: Thread)
    requires Inv(w, s)
    ensures Inv(w, HandlerChecksDue(w, s, t))
  {
    hide Inv, Goto, Record;
    if t in s.threads && s.threads[t].Handling? && s.threads[t].stage == CheckDue {
      var pc := s.threads[t];
      InvPc(w, s, t);
      InvEntry(w, s, pc.bind);
      if Forced(s, pc) || s.clock - LastSdidContact(s.log[pc.bind].found) >= w.reverifyInterval {
        GotoKept(w, s, t, pc.(stage := ReadCitizen(s.clock)));
      } else {
        RecordKept(w, s, t, Fresh(pc.req, pc.at, pc.bind, Cadence(s.clock)),
          Some(pc.(stage := AfterFresh(pc.req.purpose), at := |s.log|)));
      }
    }
  }

  lemma ReadCitizenKept(w: World, s: State, t: Thread)
    requires Inv(w, s)
    ensures Inv(w, ReassertReadsCitizen(s, t))
  {
    hide Inv, Goto, Stop;
    if t in s.threads && s.threads[t].Handling? && s.threads[t].stage.ReadCitizen? {
      InvPc(w, s, t);
      StopKept(w, s, t);
      GotoKept(w, s, t, s.threads[t].(stage := AskSdid(s.threads[t].stage.now)));
    }
  }

  lemma SdidAnswerKept(w: World, s: State, t: Thread, valid: bool)
    requires Inv(w, s)
    ensures Inv(w, SdidAnswers(s, t, valid))
  {
    hide Inv, Goto;
    if t in s.threads && s.threads[t].Handling? && s.threads[t].stage.AskSdid? {
      InvPc(w, s, t);
      GotoKept(w, s, t, s.threads[t].(stage := WriteSdid(s.threads[t].stage.now, valid)));
    }
  }

  lemma SdidWriteKept(w: World, s: State, t: Thread)
    requires Inv(w, s)
    ensures Inv(w, ReassertWrites(s, t))
  {
    hide Inv, Goto, Record;
    if t in s.threads && s.threads[t].Handling? && s.threads[t].stage.WriteSdid? {
      var pc := s.threads[t];
      InvPc(w, s, t);
      var citizen := s.log[pc.bind].found.fixed.citizen;
      if pc.stage.valid {
        var s1 := s.(bindings := Touch(s.bindings, citizen, pc.stage.now));
        WriteKept(w, s, s1);
        RecordKept(w, s1, t, Fresh(pc.req, pc.at, pc.bind, Answered(pc.stage.now)),
          Some(pc.(stage := AfterFresh(pc.req.purpose), at := |s.log|)));
      } else {
        var s1 := s.(suspended := s.suspended + {citizen});
        WriteKept(w, s, s1);
        InvPc(w, s1, t);
        GotoKept(w, s1, t, pc.(stage := RevokeAll));
      }
    }
  }

  lemma SdidRevokeKept(w: World, s: State, t: Thread)
    requires Inv(w, s)
    ensures Inv(w, ReassertRevokes(s, t))
  {
    hide Inv, Stop;
    if t in s.threads && s.threads[t].Handling? && s.threads[t].stage == RevokeAll && IsBindRead(s, s.threads[t].bind) {
      var s1 := s.(bindings := RevokeActive(s.bindings, s.log[s.threads[t].bind].found.fixed.citizen));
      WriteKept(w, s, s1);
      StopKept(w, s1, t);
    }
  }

  lemma TakeKept(w: World, s: State, t: Thread)
    requires Inv(w, s)
    ensures Inv(w, HandlerTakes(s, t))
  {
    hide Inv, Stop, Record;
    if t in s.threads && s.threads[t].Handling? && s.threads[t].stage == Take {
      var pc := s.threads[t];
      var c := pc.req.challenge;
      InvPc(w, s, t);
      StopKept(w, s, t);
      if c in s.challenges {
        var row := s.challenges[c];
        var s1 := s.(challenges := s.challenges - {c});
        WriteKept(w, s, s1);
        StopKept(w, s1, t);
        if row.purpose == StoredPurpose(pc.req.purpose) && row.binding == pc.req.binding {
          InvRecord(w, s, c);
          var e := Taken(pc.req, pc.at, pc.bind, row);
          forall i | 0 <= i < |s1.log| ensures !Clash(s1.log[i], e) { InvEntry(w, s, i); }
          RecordKept(w, s1, t, e, Some(pc.(stage := Verify, at := |s.log|)));
        }
      }
    }
  }

  lemma VerifyKept(w: World, s: State, t: Thread, signature: nat)
    requires Inv(w, s)
    ensures Inv(w, HandlerVerifies(s, t, signature))
  {
    hide Inv, Stop, Record, BuildChallengePayload;
    if t in s.threads && s.threads[t].Handling? && s.threads[t].stage == Verify {
      var pc := s.threads[t];
      InvPc(w, s, t);
      StopKept(w, s, t);
      var payload := BuildChallengePayload(pc.req.purpose, pc.req.challenge, s.log[pc.at].record.nonce);
      if signature < |s.log| && s.log[signature].Signed? && s.log[signature].payload == payload
         && s.log[signature].key == s.log[pc.bind].found.fixed.key
      {
        RecordKept(w, s, t, Verified(pc.req, pc.at, pc.bind, payload, signature),
          Some(pc.(stage := AfterVerify(pc.req.purpose), at := |s.log|)));
      }
    }
  }

  // ------------------------------------------------------- effects of a request

  lemma ActivateKept(w: World, s: State, t: Thread)
    requires Inv(w, s) && t in s.threads && s.threads[t].Handling? && s.threads[t].stage == Finish
    requires s.threads[t].bind >= 0
    requires s.threads[t].req.purpose == Activation
    ensures Inv(w, Activate(s, t, s.threads[t]))
  {
    hide Inv, Stop, Record;
    StopKept(w, s, t);
    InvPc(w, s, t);
    var pc := s.threads[t];
    if pc.req.binding in s.bindings {
      var row := s.bindings[pc.req.binding].(status := Active, activatedAt := Some(s.clock));
      var s1 := s.(bindings := s.bindings[pc.req.binding := row]);
      WriteKept(w, s, s1);
      RecordKept(w, s1, t, Finished(pc.req, pc.at, pc.bind, s.clock), None);
    }
  }

  lemma MintSessionKept(w: World, s: State, t: Thread)
    requires Inv(w, s) && t in s.threads && s.threads[t].Handling? && s.threads[t].stage == Finish
    requires s.threads[t].req.purpose == Login && IsBindRead(s, s.threads[t].bind)
    ensures Inv(w, MintSession(s, t, s.threads[t]))
  {
    hide Inv, Record;
    InvPc(w, s, t);
    var pc := s.threads[t];
    var s1 := s.(sessions := s.sessions + {(s.log[pc.bind].found.fixed.citizen, pc.req.binding)});
    WriteKept(w, s, s1);
    RecordKept(w, s1, t, Finished(pc.req, pc.at, pc.bind, s.clock), None);
  }

  lemma FinishKept(w: World, s: State, t: Thread)
    requires Inv(w, s)
    ensures Inv(w, HandlerFinishes(s, t))
  {
    hide Inv, Decide, Activate, MintSession;
    if t in s.threads && s.threads[t].Handling? && s.threads[t].stage == Finish && IsBindRead(s, s.threads[t].bind) {
      match s.threads[t].req.purpose
      case CibaApprove(id) => DecideKept(w, s, t, id, Approved);
      case CibaDeny(id) => DecideKept(w, s, t, id, Denied);
      case Activation => ActivateKept(w, s, t);
      case Login => MintSessionKept(w, s, t);
      case Attestation =>
    }
  }

  predicate Decides(s: State, t: Thread, id: Id, status: TxnStatus) {
    && t in s.threads && s.threads[t].Handling? && s.threads[t].stage == Finish && s.threads[t].bind >= 0
    && id in s.txns && s.txns[id].status == Pending
    && s.threads[t].req.purpose == (if status == Approved then CibaApprove(id) else CibaDeny(id))
    && (status == Approved || status == Denied)
  }

  /** The state after a decision that won its compare-and-set. */
  function Decided(s: State, t: Thread, id: Id, status: TxnStatus): State
    requires Decides(s, t, id, status)
  {
    Decide(s, t, s.threads[t], id, status)
  }

  lemma DecideKept(w: World, s: State, t: Thread, id: Id, status: TxnStatus)
    requires Inv(w, s) && t in s.threads && s.threads[t].Handling? && s.threads[t].stage == Finish
    requires s.threads[t].bind >= 0
    requires s.threads[t].req.purpose == (if status == Approved then CibaApprove(id) else CibaDeny(id))
    requires status == Approved || status == Denied
    ensures Inv(w, Decide(s, t, s.threads[t], id, status))
  {
    hide Inv, Stop;
    StopKept(w, s, t);
    if id in s.txns && s.txns[id].status == Pending { DecidedKept(w, s, t, id, status); }
  }

  lemma DecidedKept(w: World, s: State, t: Thread, id: Id, status: TxnStatus)
    requires Inv(w, s) && Decides(s, t, id, status)
    ensures Inv(w, Decided(s, t, id, status))
  {
    hide Inv, Approval, PcOk, HandlingOk, Grows, Tables, Clash, Spent, SnapshotOk;
    var s' := Decided(s, t, id, status);
    var e := s'.log[|s.log|];
    DecidedTables(w, s, t, id, status);
    forall i | 0 <= i < |s.log| ensures !Clash(s.log[i], e) { DecidesOnce(w, s, t, id, status, i); }
    assert FinishedOk(s.log, e) by { InvPc(w, s, t); DecisionPc(s, s.threads[t]); }
    hide Decides;
    assert Spent(s', |s.log|, e) && SnapshotOk(s', e) by { DecidedSpent(s, t, id, status); }
    Advance(w, s, s', t, e);
  }

  lemma DecidedTables(w: World, s: State, t: Thread, id: Id, status: TxnStatus)
    requires Inv(w, s) && Decides(s, t, id, status)
    ensures Grows(s, Decided(s, t, id, status)) && Tables(s, Decided(s, t, id, status))
  {
    hide Inv, Approval, ApprovedRow, PcOk, HandlingOk, Grows, TxnsOk, CodesOk, ChallengesOk, Spent;
    var s' := Decided(s, t, id, status);
    DecidedTxns(w, s, t, id, status);
    CodesKept(w, s, s');
    ChallengesKept(w, s, s');
    SpentKept(w, s, s');
  }

  lemma DecidesOnce(w: World, s: State, t: Thread, id: Id, status: TxnStatus, i: nat)
    requires Inv(w, s) && Decides(s, t, id, status) && i < |s.log|
    ensures !Clash(s.log[i], Finished(s.threads[t].req, s.threads[t].at, s.threads[t].bind, s.clock))
  {
    hide Inv, EventOk;
    InvEntry(w, s, i);
  }

  /** What a decision thread about to write its effect knows. */
  lemma DecisionPc(s: State, pc: Pc)
    requires pc.Handling? && pc.stage == Finish && pc.req.purpose.IsCiba() && PcOk(s, pc)
    ensures BindAt(s.log, pc.bind, pc.req) && VerifiedAt(s.log, pc.at, pc.req, pc.bind) && StartOk(s.log, pc)
  {
  }

  lemma DecidedSpent(s: State, t: Thread, id: Id, status: TxnStatus)
    requires Decides(s, t, id, status)
    ensures Spent(Decided(s, t, id, status), |s.log|,
        Finished(s.threads[t].req, s.threads[t].at, s.threads[t].bind, s.clock))
    ensures SnapshotOk(Decided(s, t, id, status),
        Finished(s.threads[t].req, s.threads[t].at, s.threads[t].bind, s.clock))
  {
  }

  lemma DecidedTxns(w: World, s: State, t: Thread, id: Id, status: TxnStatus)
    requires Inv(w, s) && Decides(s, t, id, status)
    ensures Grows(s, Decided(s, t, id, status)) && TxnsOk(Decided(s, t, id, status))
  {
    hide Inv, ApprovedRow, PcOk, Approval;
    var s' := Decided(s, t, id, status);
    assert Grows(s, s');
    forall k | k in s'.txns
      ensures k in s'.used && ColonFree(k) && (WasApproved(s'.txns[k]) ==> ApprovedRow(s', k, s'.txns[k]))
    {
      InvTxn(w, s, k);
      if k == id {
        if status == Approved { DecidedRow(w, s, t, id); }
      } else if WasApproved(s.txns[k]) {
        ApprovedRowStable(s, s', k);
      }
    }
  }

  /** The approved row holds exactly what the entry approving it decided. */
  lemma DecidedRow(w: World, s: State, t: Thread, id: Id)
    requires Inv(w, s) && Decides(s, t, id, Approved)
    ensures ApprovedRow(Decided(s, t, id, Approved), id, Decided(s, t, id, Approved).txns[id])
  {
    hide Inv, LogOk;
    var pc := s.threads[t];
    InvPc(w, s, t);
    DecisionPc(s, pc);
    var read := s.log[pc.bind].prev;
    InvEntry(w, s, pc.bind);
    InvEntry(w, s, read);
    hide PcOk, HandlingOk, EventOk;
    var s' := Decided(s, t, id, Approved);
    assert s'.log[pc.bind] == s.log[pc.bind] && s'.log[read] == s.log[read];
    assert Approval(s'.log, |s.log|, id).Some?;
  }

  // ------------------------------------------------------------ token endpoint

  lemma CibaReadKept(w: World, s: State, t: Thread, id: Id, rp: Id)
    requires Inv(w, s)
    ensures Inv(w, CibaGrantReads(s, t, id, rp))
  {
    hide Inv, Goto;
    if t !in s.threads && id in s.txns && s.txns[id].fixed.rp == rp {
      GotoKept(w, s, t, Expiring(id));
      if s.txns[id].status == Approved { GotoKept(w, s, t, CibaBind(id, s.txns[id], s.clock, rp)); }
    }
  }

  predicate MovesOn(s: State, id: Id, status: TxnStatus) {
    && id in s.txns
    && ((s.txns[id].status == Pending && status == Expired) || (s.txns[id].status == Approved && status == Consumed))
  }

  /** A row moves on without an entry: it must not become approved, nor leave a final status. */
  lemma StatusKept(w: World, s: State, id: Id, status: TxnStatus)
    requires Inv(w, s) && MovesOn(s, id, status)
    ensures Inv(w, s.(txns := s.txns[id := s.txns[id].(status := status)]))
  {
    hide Inv, Tables, Grows, PcOk;
    StatusTables(w, s, id, status);
    Quiet(w, s, s.(txns := s.txns[id := s.txns[id].(status := status)]), 0);
  }

  lemma StatusGrows(s: State, id: Id, status: TxnStatus)
    requires MovesOn(s, id, status)
    ensures Grows(s, s.(txns := s.txns[id := s.txns[id].(status := status)]))
  {
  }

  lemma StatusTables(w: World, s: State, id: Id, status: TxnStatus)
    requires Inv(w, s) && MovesOn(s, id, status)
    ensures var s' := s.(txns := s.txns[id := s.txns[id].(status := status)]); Grows(s, s') && Tables(s, s')
  {
    hide Inv, TxnsOk, CodesOk, ChallengesOk, PcOk, ApprovedRow, Spent, Grows;
    var s' := s.(txns := s.txns[id := s.txns[id].(status := status)]);
    StatusGrows(s, id, status);
    forall k | k in s'.txns ensures k in s'.used && ColonFree(k) { InvTxn(w, s, k); }
    TxnsKept(w, s, s');
    CodesKept(w, s, s');
    ChallengesKept(w, s, s');
    SpentKept(w, s, s');
  }

  lemma CibaExpireKept(w: World, s: State, t: Thread)
    requires Inv(w, s)
    ensures Inv(w, CibaGrantExpires(s, t))
  {
    hide Inv, Stop;
    StopKept(w, s, t);
    if t in s.threads && s.threads[t].Expiring? {
      var id := s.threads[t].txn;
      if id in s.txns && s.txns[id].status == Pending {
        StatusKept(w, s, id, Expired);
        StopKept(w, s.(txns := s.txns[id := s.txns[id].(status := Expired)]), t);
      }
    }
  }

  /** A grant computed from a row that was read as approved is the approved grant. */
  lemma GrantFromRow(w: World, s: State, id: Id, row: Txn, now: nat)
    requires Inv(w, s) && ApprovedSnapshot(s, id, row)
    ensures row.binding.Some? && row.binding.value in s.bindings
    ensures GrantReady(s, id, GrantOf(row, s.bindings[row.binding.value].fixed.assurance, now))
  {
    hide Inv, Approval;
    InvTxn(w, s, id);
  }

  lemma CibaBindKept(w: World, s: State, t: Thread)
    requires Inv(w, s)
    ensures Inv(w, CibaGrantReadsBinding(s, t))
  {
    hide Inv, Goto, Stop, GrantReady, ApprovedSnapshot;
    StopKept(w, s, t);
    if t in s.threads && s.threads[t].CibaBind? {
      var CibaBind(id, row, now, rp) := s.threads[t];
      InvPc(w, s, t);
      GrantFromRow(w, s, id, row, now);
      GotoKept(w, s, t, CibaCas(id, row, GrantOf(row, s.bindings[row.binding.value].fixed.assurance, now), rp));
    }
  }

  lemma RedeemKept(w: World, s: State, t: Thread, id: Id, grant: Grant, next: Pc)
    requires Inv(w, s) && GrantReady(s, id, grant)
    requires (next.Mint? && next.at == |s.log|) || (next.PollInsert? && next.at == |s.log|)
    requires next.txn == id && next.grant == grant && (next.Mint? ==> next.rp == grant.rp && next.oidcNonce == None)
    ensures Inv(w, Redeem(s, t, id, grant, next))
  {
    hide Inv, Stop, Record, Approval;
    StopKept(w, s, t);
    if s.txns[id].status == Approved {
      var s1 := s.(txns := s.txns[id := s.txns[id].(status := Consumed)]);
      StatusKept(w, s, id, Consumed);
      var e := Redeemed(id, s.approvals[id], grant);
      forall i | 0 <= i < |s.log| ensures !Clash(s.log[i], e) { InvEntry(w, s, i); }
      RecordKept(w, s1, t, e, Some(next));
    }
  }

  lemma CibaConsumeKept(w: World, s: State, t: Thread)
    requires Inv(w, s)
    ensures Inv(w, CibaGrantConsumes(s, t))
  {
    hide Inv, Redeem, GrantReady;
    if t in s.threads && s.threads[t].CibaCas? {
      var CibaCas(id, row, grant, rp) := s.threads[t];
      InvPc(w, s, t);
      RedeemKept(w, s, t, id, grant, Mint(id, grant, None, |s.log|, rp));
    }
  }

  lemma PollReadKept(w: World, s: State, t: Thread, id: Id)
    requires Inv(w, s)
    ensures Inv(w, PollReads(s, t, id))
  {
    hide Inv, Goto;
    if t !in s.threads && id in s.txns && s.txns[id].status == Approved {
      GotoKept(w, s, t, PollStash(id, s.txns[id], s.clock));
    }
  }

  lemma PollStashKept(w: World, s: State, t: Thread)
    requires Inv(w, s)
    ensures Inv(w, PollReadsStash(s, t))
  {
    hide Inv, Goto, Stop, ApprovedSnapshot;
    StopKept(w, s, t);
    if t in s.threads && s.threads[t].PollStash? {
      var PollStash(id, row, now) := s.threads[t];
      InvPc(w, s, t);
      if id in s.stashes { GotoKept(w, s, t, PollBind(id, row, s.stashes[id], now)); }
    }
  }

  lemma PollBindKept(w: World, s: State, t: Thread)
    requires Inv(w, s)
    ensures Inv(w, PollReadsBinding(w, s, t))
  {
    hide Inv, Goto, Stop, GrantReady, ApprovedSnapshot;
    StopKept(w, s, t);
    if t in s.threads && s.threads[t].PollBind? {
      var PollBind(id, row, stash, now) := s.threads[t];
      InvPc(w, s, t);
      GrantFromRow(w, s, id, row, now);
      var grant := GrantOf(row, s.bindings[row.binding.value].fixed.assurance, now);
      GotoKept(w, s, t, PollCas(id, grant, stash, now + w.codeTtl));
    }
  }

  lemma PollConsumeKept(w: World, s: State, t: Thread)
    requires Inv(w, s)
    ensures Inv(w, PollConsumes(s, t))
  {
    hide Inv, Redeem, GrantReady;
    if t in s.threads && s.threads[t].PollCas? {
      var PollCas(id, grant, stash, expiresAt) := s.threads[t];
      InvPc(w, s, t);
      RedeemKept(w, s, t, id, grant, PollInsert(id, grant, stash, expiresAt, |s.log|));
    }
  }

  lemma PollInsertKept(w: World, s: State, t: Thread, code: Id)
    requires Inv(w, s)
    ensures Inv(w, PollInserts(s, t, code))
  {
    hide Inv, Tables, Grows, Approval;
    if t in s.threads && s.threads[t].PollInsert? && code !in s.used {
      InvPc(w, s, t);
      var PollInsert(id, grant, stash, expiresAt, at) := s.threads[t];
      var s' := PollInserts(s, t, code);
      var e := CodeIssued(code, at, Code(id, |s.log|, grant, stash, expiresAt, false));
      hide PcOk, EventOk;
      InsertedTables(w, s, t, code);
      assert EventOk(w, s.log, e) by { InsertedOk(w, s.log, e); }
      Advance(w, s, s', t, e);
    }
  }

  lemma InsertGrows(s: State, t: Thread, code: Id)
    requires t in s.threads && s.threads[t].PollInsert? && code !in s.used && code !in s.codes
    ensures Grows(s, PollInserts(s, t, code))
  {
    hide WasApproved;
  }

  lemma InsertedTables(w: World, s: State, t: Thread, code: Id)
    requires Inv(w, s) && t in s.threads && s.threads[t].PollInsert? && code !in s.used
    ensures Grows(s, PollInserts(s, t, code)) && Tables(s, PollInserts(s, t, code))
  {
    hide Inv, TxnsOk, ChallengesOk, Spent, PcOk, Grows;
    var s' := PollInserts(s, t, code);
    assert code !in s.codes by { if code in s.codes { InvCode(w, s, code); } }
    InsertGrows(s, t, code);
    forall c | c in s'.codes ensures CodeRowOk(s', c) { if c != code { InvCode(w, s, c); } }
    TxnsUnchanged(w, s, s');
    ChallengesKept(w, s, s');
    SpentKept(w, s, s');
  }

  lemma InsertedOk(w: World, log: seq<Event>, e: Event)
    requires e.CodeIssued? && CodeIssuedOk(log, e)
    ensures EventOk(w, log, e)
  {
  }

  lemma CodeReadKept(w: World, s: State, t: Thread, code: Id, rp: Id, presented: Pkce)
    requires Inv(w, s)
    ensures Inv(w, CodeGrantReads(s, t, code, rp, presented))
  {
    hide Inv, Goto;
    if t !in s.threads && code in s.codes && s.codes[code].stash.pkce == presented && s.codes[code].grant.rp == rp
       && s.codes[code].expiresAt > s.clock
    {
      GotoKept(w, s, t, CodeCas(code, presented, s.clock, rp));
    }
  }

  lemma SpendCodeKept(w: World, s: State, code: Id)
    requires Inv(w, s) && code in s.codes
    ensures Inv(w, s.(codes := s.codes[code := s.codes[code].(consumed := true)]))
  {
    hide Inv, Tables, Grows, PcOk;
    SpendCodeTables(w, s, code);
    Quiet(w, s, s.(codes := s.codes[code := s.codes[code].(consumed := true)]), 0);
  }

  lemma SpendCodeTables(w: World, s: State, code: Id)
    requires Inv(w, s) && code in s.codes
    ensures var s' := s.(codes := s.codes[code := s.codes[code].(consumed := true)]); Grows(s, s') && Tables(s, s')
  {
    hide Inv, TxnsOk, CodesOk, ChallengesOk, PcOk, ApprovedRow, Spent;
    var s' := s.(codes := s.codes[code := s.codes[code].(consumed := true)]);
    assert Grows(s, s');
    TxnsUnchanged(w, s, s');
    CodesKept(w, s, s');
    ChallengesKept(w, s, s');
    SpentKept(w, s, s');
  }

  lemma CodeConsumeKept(w: World, s: State, t: Thread)
    requires Inv(w, s)
    ensures Inv(w, CodeGrantConsumes(s, t))
  {
    hide Inv, Stop, Record;
    StopKept(w, s, t);
    if t in s.threads && s.threads[t].CodeCas? {
      var CodeCas(code, presented, now, rp) := s.threads[t];
      InvPc(w, s, t);
      if code in s.codes && !s.codes[code].consumed {
        var row := s.codes[code];
        var s1 := s.(codes := s.codes[code := row.(consumed := true)]);
        SpendCodeKept(w, s, code);
        InvCode(w, s, code);
        var e := CodeRedeemed(code, row.issuedAt, presented, now);
        forall i | 0 <= i < |s.log| ensures !Clash(s.log[i], e) { InvEntry(w, s, i); }
        RecordKept(w, s1, t, e, Some(Mint(row.txn, row.grant, row.stash.oidcNonce, |s.log|, rp)));
      }
    }
  }

  lemma MintKept(w: World, s: State, t: Thread)
    requires Inv(w, s)
    ensures Inv(w, Mints(s, t))
  {
    hide Inv, Record, MintsFrom;
    if t in s.threads && s.threads[t].Mint? {
      var Mint(id, grant, oidcNonce, at, rp) := s.threads[t];
      InvPc(w, s, t);
      RecordKept(w, s, t, Token(id, at, grant, oidcNonce, rp), None);
    }
  }

  // ------------------------------------------------------------------ any step

  lemma TickKept(w: World, s: State, delta: nat)
    requires Inv(w, s)
    ensures Inv(w, s.(clock := s.clock + delta))
  {
    hide Inv;
    WriteKept(w, s, s.(clock := s.clock + delta));
  }

  lemma DropStashKept(w: World, s: State, id: Id)
    requires Inv(w, s)
    ensures Inv(w, s.(stashes := s.stashes - {id}))
  {
    hide Inv;
    WriteKept(w, s, s.(stashes := s.stashes - {id}));
  }

  lemma DropChallengeKept(w: World, s: State, id: Id)
    requires Inv(w, s)
    ensures Inv(w, s.(challenges := s.challenges - {id}))
  {
    hide Inv;
    WriteKept(w, s, s.(challenges := s.challenges - {id}));
  }

  lemma RevokeKept(w: World, s: State, id: Id)
    requires Inv(w, s)
    ensures Inv(w, RevokeDevice(s, id))
  {
    hide Inv;
    WriteKept(w, s, RevokeDevice(s, id));
  }

  lemma SignStepKept(w: World, s: State, step: RequestStep)
    requires Inv(w, s) && (step.ClientSignStep? || step.OtherSignStep?)
    ensures Inv(w, ApplyRequest(w, s, step))
  {
    hide Inv, Note, BuildChallengePayload;
    match step
    case ClientSignStep(key, act) =>
      SignKept(w, s, Signed(key, BuildChallengePayload(act.purpose, act.challenge, act.nonce), Some(act)));
    case OtherSignStep(key, payload) =>
      if key !in w.honest { SignKept(w, s, Signed(key, payload, None)); }
  }

  lemma SweepKept(w: World, s: State, citizen: Id, write: SweepWrite)
    requires Inv(w, s)
    ensures Inv(w, SweepWrites(s, citizen, write))
  {
    hide Inv, Note;
    match write
    case Refresh(when) =>
      var s1 := s.(bindings := Touch(s.bindings, citizen, when));
      WriteKept(w, s, s1);
      SignKept(w, s1, Swept(citizen, when));
    case Suspend => WriteKept(w, s, s.(suspended := s.suspended + {citizen}));
    case RevokeBindings => WriteKept(w, s, s.(bindings := RevokeActive(s.bindings, citizen)));
  }

  lemma RequestStepKept(w: World, s: State, step: RequestStep)
    requires Inv(w, s)
    ensures Inv(w, ApplyRequest(w, s, step))
  {
    hide Inv, ClientSign, Create, Enrol, Issue, ListPending, OtherSign, PutStash, RevokeDevice, StartLoginChallenge,
        SweepWrites;
    match step
    case CreateStep(t, id, fixed) => CreateKept(w, s, t, id, fixed);
    case PutStashStep(t) => StashKept(w, s, t);
    case DropStashStep(id) => DropStashKept(w, s, id);
    case EnrolStep(t, id, fixed) => EnrolKept(w, s, t, id, fixed);
    case RevokeStep(id) => RevokeKept(w, s, id);
    case ListPendingStep(t, citizen, binding, id) => ListPendingKept(w, s, t, citizen, binding, id);
    case LoginChallengeStep(t, binding) => LoginChallengeKept(w, s, t, binding);
    case IssueStep(t, id, nonce) => IssueKept(w, s, t, id, nonce);
    case DropChallengeStep(id) => DropChallengeKept(w, s, id);
    case ClientSignStep(_, _) => SignStepKept(w, s, step);
    case OtherSignStep(_, _) => SignStepKept(w, s, step);
    case SweepStep(citizen, write) => SweepKept(w, s, citizen, write);
    case TickStep(delta) => TickKept(w, s, delta);
  }

  lemma HandlerStepKept(w: World, s: State, step: HandlerStep)
    requires Inv(w, s)
    ensures Inv(w, ApplyHandler(w, s, step))
  {
    hide Inv, DecisionReadsTxn, HandlerChecksDue, HandlerFinishes, HandlerReadsBinding, HandlerTakes,
      HandlerVerifies, ReassertReadsCitizen, ReassertRevokes, ReassertWrites, SdidAnswers, StartDecision,
      StartHandler;
    match step
    case StartDecisionStep(t, citizen, session, req) => StartDecisionKept(w, s, t, citizen, session, req);
    case StartHandlerStep(t, req) => StartHandlerKept(w, s, t, req);
    case ReadTxnStep(t) => ReadTxnKept(w, s, t);
    case ReadBindingStep(t) => ReadBindingKept(w, s, t);
    case CheckDueStep(t) => CheckDueKept(w, s, t);
    case ReadCitizenStep(t) => ReadCitizenKept(w, s, t);
    case SdidAnswerStep(t, valid) => SdidAnswerKept(w, s, t, valid);
    case SdidWriteStep(t) => SdidWriteKept(w, s, t);
    case SdidRevokeStep(t) => SdidRevokeKept(w, s, t);
    case TakeStep(t) => TakeKept(w, s, t);
    case VerifyStep(t, signature) => VerifyKept(w, s, t, signature);
    case FinishStep(t) => FinishKept(w, s, t);
  }

  lemma EndpointStepKept(w: World, s: State, step: EndpointStep)
    requires Inv(w, s)
    ensures Inv(w, ApplyEndpoint(w, s, step))
  {
    hide Inv, CibaGrantConsumes, CibaGrantExpires, CibaGrantReads, CibaGrantReadsBinding, CodeGrantConsumes,
      CodeGrantReads, Mints, PollConsumes, PollInserts, PollReads, PollReadsBinding, PollReadsStash, Stop;
    match step
    case CibaReadStep(t, id, rp) => CibaReadKept(w, s, t, id, rp);
    case CibaExpireStep(t) => CibaExpireKept(w, s, t);
    case CibaBindStep(t) => CibaBindKept(w, s, t);
    case CibaConsumeStep(t) => CibaConsumeKept(w, s, t);
    case PollReadStep(t, id) => PollReadKept(w, s, t, id);
    case PollStashStep(t) => PollStashKept(w, s, t);
    case PollBindStep(t) => PollBindKept(w, s, t);
    case PollConsumeStep(t) => PollConsumeKept(w, s, t);
    case PollInsertStep(t, id) => PollInsertKept(w, s, t, id);
    case CodeReadStep(t, id, rp, presented) => CodeReadKept(w, s, t, id, rp, presented);
    case CodeConsumeStep(t) => CodeConsumeKept(w, s, t);
    case MintStep(t) => MintKept(w, s, t);
    case AbortStep(t) => StopKept(w, s, t);
  }

  lemma ApplyKept(w: World, s: State, step: Step)
    requires Inv(w, s)
    ensures Inv(w, Apply(w, s, step))
  {
    hide Inv, ApplyRequest, ApplyHandler, ApplyEndpoint;
    match step
    case Around(st) => RequestStepKept(w, s, st);
    case Handle(st) => HandlerStepKept(w, s, st);
    case Endpoint(st) => EndpointStepKept(w, s, st);
  }

  lemma InitOk(w: World)
    ensures Inv(w, Init())
  {
  }

  /** The invariant holds after every run. */
  lemma {:induction false} ExecInv(w: World, steps: seq<Step>)
    ensures Inv(w, Exec(w, steps))
  {
    hide Inv, Apply;
    if steps == [] {
      InitOk(w);
    } else {
      ExecInv(w, steps[..|steps| - 1]);
      ApplyKept(w, Exec(w, steps[..|steps| - 1]), steps[|steps| - 1]);
    }
  }
}
