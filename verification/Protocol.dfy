/**
 * The authorisation protocol as interleaved atomic steps.
 *
 * Every step is one database statement, one Redis command, one clock reading or one device signature, except that a row
 * read and the clock reading that follows it in the same handler are one step. A handler is a thread: between two of
 * its steps any other thread may run. Each read, consumption and effect appends one entry to `log`; a handler's local
 * variables are the entries it wrote, named by their index. The log is history: no step of the code looks at an entry
 * that its own handler did not write.
 */
module Protocol {
  import opened Common
  import opened Challenge

  type Id = string
  type Key = nat
  type Thread = nat

  datatype Assurance = AL1 | AL2 | AL3

  function Rank(a: Assurance): nat { match a case AL1 => 1 case AL2 => 2 case AL3 => 3 }

  predicate AlMeets(actual: Assurance, min: Assurance) { Rank(actual) >= Rank(min) }

  /** The same order, level by level and without ranks. */
  predicate Suffices(actual: Assurance, min: Assurance) {
    match min case AL1 => true case AL2 => actual != AL1 case AL3 => actual == AL3
  }

  lemma RanksOrder(actual: Assurance, min: Assurance)
    ensures AlMeets(actual, min) <==> Suffices(actual, min)
  {
  }

  // ------------------------------------------------------------------ rows

  /** Columns of a binding that no statement updates. */
  datatype BindingKey = BindingKey(citizen: Id, key: Key, assurance: Assurance)
  datatype BindingStatus = Waiting | Active | Revoked
  datatype Binding = Binding(fixed: BindingKey, status: BindingStatus,
                             enrolledAt: nat, activatedAt: Option<nat>, lastReassertedAt: Option<nat>)

  function LastSdidContact(b: Binding): nat {
    match b.lastReassertedAt
    case Some(t) => t
    case None => match b.activatedAt case Some(t) => t case None => b.enrolledAt
  }

  datatype Flow = CibaFlow | CodeFlow
  /** The PKCE challenge and redirect URI of an authorize request, or what a token request presents to match them. */
  datatype Pkce = Pkce(codeChallenge: string, redirectUri: string)
  /** What an authorize request leaves in Redis until it is approved. */
  datatype Stash = Stash(pkce: Pkce, oidcNonce: Option<string>)

  /** Columns of a transaction that no statement updates. `sent` is history: the code keeps it in Redis only. */
  datatype Request = Request(rp: Id, citizen: Id, flow: Flow, scopes: seq<string>, requestedAl: Assurance,
                             expiresAt: nat, sent: Stash)
  datatype TxnStatus = Pending | Approved | Denied | Expired | Consumed
  datatype Txn = Txn(fixed: Request, status: TxnStatus, binding: Option<Id>, resolvedAt: Option<nat>)

  /** What a token, or the code that will become one, is minted from. */
  datatype Grant = Grant(rp: Id, citizen: Id, scopes: seq<string>, acr: Assurance, authTime: nat)

  /** `txn` and `issuedAt` are history: the row itself does not name its transaction. */
  datatype Code = Code(txn: Id, issuedAt: nat, grant: Grant, stash: Stash, expiresAt: nat, consumed: bool)
  /** `issuedAt` is history. */
  datatype ChallengeRow = ChallengeRow(purpose: string, nonce: string, binding: Id, issuedAt: nat)

  // ------------------------------------------------------------------- log

  /** A signed request: what it is for, which binding it speaks for, which challenge it answers. */
  datatype Req = Req(purpose: Purpose, binding: Id, challenge: Id)

  datatype Contact = Cadence(now: nat) | Answered(now: nat)

  datatype Act = Act(purpose: Purpose, challenge: Id, nonce: string)

  datatype Event =
    | Issued(stored: string, challenge: Id, nonce: string, binding: Id)
    | Signed(key: Key, payload: string, client: Option<Act>)
    | TxnRead(req: Req, start: nat, citizen: Id, row: Txn)
    | BindRead(req: Req, prev: int, found: Binding)
    | Fresh(req: Req, prev: int, bind: nat, contact: Contact)
    | Taken(req: Req, prev: int, bind: nat, record: ChallengeRow)
    | Verified(req: Req, prev: int, bind: nat, payload: string, signature: nat)
    | Finished(req: Req, prev: int, bind: nat, when: nat)
    | Redeemed(txn: Id, cause: nat, grant: Grant)
    | CodeIssued(code: Id, prev: int, issued: Code)
    | CodeRedeemed(code: Id, cause: nat, presented: Pkce, at: nat)
    | Token(txn: Id, prev: int, grant: Grant, oidcNonce: Option<string>, rp: Id)
    | Swept(citizen: Id, when: nat)

  // ---------------------------------------------------------------- threads

  datatype Stage =
    | ReadTxn | ReadBinding | CheckDue | ReadCitizen(now: nat) | AskSdid(now: nat)
    | WriteSdid(now: nat, valid: bool) | RevokeAll | Take | Verify | Finish

  /** `at` is the log entry a thread wrote last, `bind` the entry holding the binding it read (-1 before that). */
  datatype Pc =
    | Handling(stage: Stage, req: Req, start: nat, citizen: Id, session: Id, at: int, bind: int)
    | Stashing(txn: Id, stash: Stash)
    | Issuing(purpose: Purpose, binding: Id)
    | Expiring(txn: Id)
    | CibaBind(txn: Id, row: Txn, now: nat, rp: Id)
    | CibaCas(txn: Id, row: Txn, grant: Grant, rp: Id)
    | PollStash(txn: Id, row: Txn, now: nat)
    | PollBind(txn: Id, row: Txn, stash: Stash, now: nat)
    | PollCas(txn: Id, grant: Grant, stash: Stash, expiresAt: nat)
    | PollInsert(txn: Id, grant: Grant, stash: Stash, expiresAt: nat, at: int)
    | CodeCas(code: Id, presented: Pkce, now: nat, rp: Id)
    | Mint(txn: Id, grant: Grant, oidcNonce: Option<string>, at: int, rp: Id)

  datatype State = State(
    clock: nat,
    txns: map<Id, Txn>, stashes: map<Id, Stash>, codes: map<Id, Code>,
    bindings: map<Id, Binding>, suspended: set<Id>,
    challenges: map<Id, ChallengeRow>, used: set<Id>, sessions: set<(Id, Id)>,
    threads: map<Thread, Pc>, log: seq<Event>,
    approvals: map<Id, nat>)   // history: the entry that approved each approved transaction

  /** Configuration and the set of keys held by unmodified clients. */
  datatype World = World(reverifyInterval: nat, codeTtl: nat, honest: set<Key>)

  function Init(): State {
    State(0, map[], map[], map[], map[], {}, map[], {}, {}, map[], [], map[])
  }

  // -------------------------------------------------------------- log access

  predicate IsBindRead(s: State, i: int) { 0 <= i < |s.log| && s.log[i].BindRead? }

  predicate IsTxnRead(s: State, i: int) { 0 <= i < |s.log| && s.log[i].TxnRead? }

  function Goto(s: State, t: Thread, pc: Pc): State { s.(threads := s.threads[t := pc]) }

  function Stop(s: State, t: Thread): State { s.(threads := s.threads - {t}) }

  function Note(s: State, e: Event): State { s.(log := s.log + [e]) }

  /** Thread `t` writes entry `e` and goes on to `next`, or ends. */
  function Record(s: State, t: Thread, e: Event, next: Option<Pc>): State {
    var s1 := Note(s, e);
    match next case Some(pc) => Goto(s1, t, pc) case None => Stop(s1, t)
  }

  // -------------------------------------------------- creating transactions

  /** `bcAuthorize` and `authorize` once their guards passed: insert a pending row; a code flow still has to stash. */
  function Create(s: State, t: Thread, id: Id, fixed: Request): State {
    if id in s.used || !ColonFree(id) || t in s.threads then s
    else
      var s1 := s.(txns := s.txns[id := Txn(fixed, Pending, None, None)], used := s.used + {id});
      if fixed.flow == CodeFlow then Goto(s1, t, Stashing(id, fixed.sent)) else s1
  }

  function PutStash(s: State, t: Thread): State {
    if t !in s.threads || !s.threads[t].Stashing? then s
    else Stop(s.(stashes := s.stashes[s.threads[t].txn := s.threads[t].stash]), t)
  }

  // ------------------------------------------------- bindings and challenges

  /** The binding insert of `enrolment.start`; its activation challenge is issued by the same handler. */
  function Enrol(s: State, t: Thread, id: Id, fixed: BindingKey): State {
    if id in s.used || id in s.bindings || t in s.threads then s
    else
      Goto(s.(bindings := s.bindings[id := Binding(fixed, Waiting, s.clock, None, None)], used := s.used + {id}),
           t, Issuing(Activation, id))
  }

  function RevokeDevice(s: State, id: Id): State {
    if id !in s.bindings then s else s.(bindings := s.bindings[id := s.bindings[id].(status := Revoked)])
  }

  /** The writes of the sweep for one citizen: SDID said valid when asked at `when`, or it said invalid. */
  datatype SweepWrite = Refresh(when: nat) | Suspend | RevokeBindings

  function SweepWrites(s: State, citizen: Id, write: SweepWrite): State {
    match write
    case Refresh(when) =>
      if when > s.clock then s
      else Note(s.(bindings := Touch(s.bindings, citizen, when)), Swept(citizen, when))
    case Suspend => s.(suspended := s.suspended + {citizen})
    case RevokeBindings => s.(bindings := RevokeActive(s.bindings, citizen))
  }

  /** The session guard: a minted session whose binding is live and still the citizen's. */
  predicate Guard(s: State, citizen: Id, binding: Id) {
    && (citizen, binding) in s.sessions
    && binding in s.bindings && s.bindings[binding].status == Active && s.bindings[binding].fixed.citizen == citizen
  }

  /** `pending`: one listed transaction is about to get a challenge. */
  function ListPending(s: State, t: Thread, citizen: Id, binding: Id, txn: Id): State {
    if t in s.threads || !Guard(s, citizen, binding) || txn !in s.txns || s.txns[txn].fixed.citizen != citizen
       || s.txns[txn].status != Pending || s.txns[txn].fixed.expiresAt <= s.clock then s
    else Goto(s, t, Issuing(CibaApprove(txn), binding))
  }

  function StartLoginChallenge(s: State, t: Thread, binding: Id): State {
    if t in s.threads || binding !in s.bindings || s.bindings[binding].status != Active then s
    else Goto(s, t, Issuing(Login, binding))
  }

  /** `issue` and `issueCiba`: store the record under a fresh random id. */
  function Issue(s: State, t: Thread, challenge: Id, nonce: string): State {
    if t !in s.threads || !s.threads[t].Issuing? || challenge in s.used || !ColonFree(challenge) || !ColonFree(nonce)
    then s
    else
      var Issuing(purpose, binding) := s.threads[t];
      var stored := StoredPurpose(purpose);
      Record(s.(challenges := s.challenges[challenge := ChallengeRow(stored, nonce, binding, |s.log|)],
                used := s.used + {challenge}),
             t, Issued(stored, challenge, nonce, binding), None)
  }

  // ------------------------------------------------------------- signatures

  /**
   * The client signs only what it rebuilds itself: `expectPayload` compares the broker's payload with its own. The
   * identifiers it was shown are arbitrary.
   */
  function ClientSign(s: State, key: Key, act: Act): State {
    if act.purpose.Attestation? then s
    else Note(s, Signed(key, BuildChallengePayload(act.purpose, act.challenge, act.nonce), Some(act)))
  }

  /** Whoever holds any other key signs anything. */
  function OtherSign(w: World, s: State, key: Key, payload: string): State {
    if key in w.honest then s else Note(s, Signed(key, payload, None))
  }

  // --------------------------------------------------- signed-request handlers

  /** `decision`, after the session guard; `now` is taken here. */
  function StartDecision(s: State, t: Thread, citizen: Id, session: Id, req: Req): State {
    if t in s.threads || !req.purpose.IsCiba() || !Guard(s, citizen, session) then s
    else Goto(s, t, Handling(ReadTxn, req, s.clock, citizen, session, -1, -1))
  }

  /** `login` and `activate`. */
  function StartHandler(s: State, t: Thread, req: Req): State {
    if t in s.threads || !(req.purpose.Login? || req.purpose.Activation?) then s
    else Goto(s, t, Handling(ReadBinding, req, s.clock, "", req.binding, -1, -1))
  }

  function DecisionReadsTxn(s: State, t: Thread): State {
    if t !in s.threads || !s.threads[t].Handling? || s.threads[t].stage != ReadTxn || !s.threads[t].req.purpose.IsCiba()
    then s
    else
      var pc := s.threads[t];
      var id := pc.req.purpose.authReqId;
      if id !in s.txns || s.txns[id].status != Pending || s.txns[id].fixed.expiresAt <= pc.start
         || s.txns[id].fixed.citizen != pc.citizen || pc.req.binding != pc.session
      then Stop(s, t)
      else
        Record(s, t, TxnRead(pc.req, pc.start, pc.citizen, s.txns[id]), Some(pc.(stage := ReadBinding, at := |s.log|)))
  }

  /** What the handler goes on to after its current duty. */
  function AfterBinding(p: Purpose): Stage { if p.CibaApprove? then CheckDue else Take }

  function AfterVerify(p: Purpose): Stage { if p.Login? then CheckDue else Finish }

  function AfterFresh(p: Purpose): Stage { if p.Login? then Finish else Take }

  function HandlerReadsBinding(s: State, t: Thread): State {
    if t !in s.threads || !s.threads[t].Handling? || s.threads[t].stage != ReadBinding then s
    else
      var pc := s.threads[t];
      if pc.req.binding !in s.bindings then Stop(s, t)
      else
        var b := s.bindings[pc.req.binding];
        if b.status != (if pc.req.purpose.Activation? then Waiting else Active) then Stop(s, t)
        else if pc.req.purpose.IsCiba()
                && !(IsTxnRead(s, pc.at) && AlMeets(b.fixed.assurance, s.log[pc.at].row.fixed.requestedAl))
        then Stop(s, t)
        else
          Record(s, t, BindRead(pc.req, pc.at, b),
                 Some(pc.(stage := AfterBinding(pc.req.purpose), at := |s.log|, bind := |s.log|)))
  }

  /** An AL3 approval always contacts SDID. */
  predicate Forced(s: State, pc: Pc)
    requires pc.Handling? && IsBindRead(s, pc.bind)
  {
    var prev := s.log[pc.bind].prev;
    pc.req.purpose.CibaApprove? && IsTxnRead(s, prev) && s.log[prev].row.fixed.requestedAl == AL3
  }

  /** `isDue`, on the binding row this handler read. */
  function HandlerChecksDue(w: World, s: State, t: Thread): State {
    if t !in s.threads || !s.threads[t].Handling? || s.threads[t].stage != CheckDue || !IsBindRead(s, s.threads[t].bind)
    then s
    else
      var pc := s.threads[t];
      var found := s.log[pc.bind].found;
      if Forced(s, pc) || s.clock - LastSdidContact(found) >= w.reverifyInterval
      then Goto(s, t, pc.(stage := ReadCitizen(s.clock)))
      else
        Record(s, t, Fresh(pc.req, pc.at, pc.bind, Cadence(s.clock)),
               Some(pc.(stage := AfterFresh(pc.req.purpose), at := |s.log|)))
  }

  function ReassertReadsCitizen(s: State, t: Thread): State {
    if t !in s.threads || !s.threads[t].Handling? || !s.threads[t].stage.ReadCitizen?
        || !IsBindRead(s, s.threads[t].bind)
    then s
    else
      var pc := s.threads[t];
      if s.log[pc.bind].found.fixed.citizen in s.suspended then Stop(s, t)
      else Goto(s, t, pc.(stage := AskSdid(pc.stage.now)))
  }

  function SdidAnswers(s: State, t: Thread, valid: bool): State {
    if t !in s.threads || !s.threads[t].Handling? || !s.threads[t].stage.AskSdid? then s
    else Goto(s, t, s.threads[t].(stage := WriteSdid(s.threads[t].stage.now, valid)))
  }

  function Touch(bs: map<Id, Binding>, citizen: Id, now: nat): map<Id, Binding> {
    map b | b in bs ::
      if bs[b].fixed.citizen == citizen && bs[b].status == Active then bs[b].(lastReassertedAt := Some(now)) else bs[b]
  }

  function RevokeActive(bs: map<Id, Binding>, citizen: Id): map<Id, Binding> {
    map b | b in bs ::
      if bs[b].fixed.citizen == citizen && bs[b].status == Active then bs[b].(status := Revoked) else bs[b]
  }

  function ReassertWrites(s: State, t: Thread): State {
    if t !in s.threads || !s.threads[t].Handling? || !s.threads[t].stage.WriteSdid? || !IsBindRead(s, s.threads[t].bind)
    then s
    else
      var pc := s.threads[t];
      var citizen := s.log[pc.bind].found.fixed.citizen;
      if pc.stage.valid then
        Record(s.(bindings := Touch(s.bindings, citizen, pc.stage.now)), t,
            Fresh(pc.req, pc.at, pc.bind, Answered(pc.stage.now)),
               Some(pc.(stage := AfterFresh(pc.req.purpose), at := |s.log|)))
      else
        Goto(s.(suspended := s.suspended + {citizen}), t, pc.(stage := RevokeAll))
  }

  function ReassertRevokes(s: State, t: Thread): State {
    if t !in s.threads || !s.threads[t].Handling? || s.threads[t].stage != RevokeAll
        || !IsBindRead(s, s.threads[t].bind)
    then s
    else
      Stop(s.(bindings := RevokeActive(s.bindings, s.log[s.threads[t].bind].found.fixed.citizen)), t)
  }

  /** `consume` and `consumeCiba`: GETDEL, then compare. A mismatch still spends the challenge. */
  function HandlerTakes(s: State, t: Thread): State {
    if t !in s.threads || !s.threads[t].Handling? || s.threads[t].stage != Take || !IsBindRead(s, s.threads[t].bind)
      then s
    else
      var pc := s.threads[t];
      if pc.req.challenge !in s.challenges then Stop(s, t)
      else
        var record := s.challenges[pc.req.challenge];
        var s1 := s.(challenges := s.challenges - {pc.req.challenge});
        if record.purpose != StoredPurpose(pc.req.purpose) || record.binding != pc.req.binding then Stop(s1, t)
        else
          Record(s1, t, Taken(pc.req, pc.at, pc.bind, record), Some(pc.(stage := Verify, at := |s.log|)))
  }

  /** `verifyDeviceSignature`, symbolically: some earlier entry signed exactly this payload with the binding's key. */
  function HandlerVerifies(s: State, t: Thread, signature: nat): State {
    if t !in s.threads || !s.threads[t].Handling? || s.threads[t].stage != Verify || !IsBindRead(s, s.threads[t].bind)
       || !(0 <= s.threads[t].at < |s.log| && s.log[s.threads[t].at].Taken?) then s
    else
      var pc := s.threads[t];
      var payload := BuildChallengePayload(pc.req.purpose, pc.req.challenge, s.log[pc.at].record.nonce);
      if !(signature < |s.log| && s.log[signature].Signed? && s.log[signature].payload == payload
           && s.log[signature].key == s.log[pc.bind].found.fixed.key) then Stop(s, t)
      else
        Record(s, t, Verified(pc.req, pc.at, pc.bind, payload, signature),
               Some(pc.(stage := AfterVerify(pc.req.purpose), at := |s.log|)))
  }

  /**
   * The compare-and-set of a decision. One that lost it still answers the device, but changes no row and writes no
   * entry here.
   */
  function Decide(s: State, t: Thread, pc: Pc, id: Id, status: TxnStatus): State
    requires pc.Handling? && pc.bind >= 0
  {
    if id !in s.txns || s.txns[id].status != Pending then Stop(s, t)
    else
      var row := s.txns[id].(status := status, binding := Some(pc.req.binding), resolvedAt := Some(pc.start));
      var approvals := if status == Approved then s.approvals[id := |s.log|] else s.approvals;
      Record(s.(txns := s.txns[id := row], approvals := approvals), t, Finished(pc.req, pc.at, pc.bind, s.clock), None)
  }

  /** The unconditional update at the end of `activate`. */
  function Activate(s: State, t: Thread, pc: Pc): State
    requires pc.Handling? && pc.bind >= 0
  {
    if pc.req.binding !in s.bindings then Stop(s, t)
    else
      var row := s.bindings[pc.req.binding].(status := Active, activatedAt := Some(s.clock));
      Record(s.(bindings := s.bindings[pc.req.binding := row]), t, Finished(pc.req, pc.at, pc.bind, s.clock), None)
  }

  /** `login` signs a session for the binding it read. */
  function MintSession(s: State, t: Thread, pc: Pc): State
    requires pc.Handling? && IsBindRead(s, pc.bind)
  {
    Record(s.(sessions := s.sessions + {(s.log[pc.bind].found.fixed.citizen, pc.req.binding)}),
           t, Finished(pc.req, pc.at, pc.bind, s.clock), None)
  }

  /** The effect of a request that passed all its checks. */
  function HandlerFinishes(s: State, t: Thread): State {
    if t !in s.threads || !s.threads[t].Handling? || s.threads[t].stage != Finish
        || !IsBindRead(s, s.threads[t].bind) then s
    else
      var pc := s.threads[t];
      match pc.req.purpose
      case CibaApprove(id) => Decide(s, t, pc, id, Approved)
      case CibaDeny(id) => Decide(s, t, pc, id, Denied)
      case Activation => Activate(s, t, pc)
      case Login => MintSession(s, t, pc)
      case Attestation => s
  }

  // ------------------------------------------------------------ token endpoint

  function CibaGrantReads(s: State, t: Thread, id: Id, rp: Id): State {
    if t in s.threads || id !in s.txns || s.txns[id].fixed.rp != rp then s
    else
      var row := s.txns[id];
      if row.status == Pending && row.fixed.expiresAt <= s.clock then Goto(s, t, Expiring(id))
      else if row.status == Approved then Goto(s, t, CibaBind(id, row, s.clock, rp))
      else s
  }

  function CibaGrantExpires(s: State, t: Thread): State {
    if t !in s.threads || !s.threads[t].Expiring? then s
    else
      var id := s.threads[t].txn;
      if id in s.txns && s.txns[id].status == Pending
      then Stop(s.(txns := s.txns[id := s.txns[id].(status := Expired)]), t)
      else Stop(s, t)
  }

  function GrantOf(row: Txn, acr: Assurance, now: nat): Grant {
    Grant(row.fixed.rp, row.fixed.citizen, row.fixed.scopes, acr,
          match row.resolvedAt case Some(at) => at case None => now)
  }

  function CibaGrantReadsBinding(s: State, t: Thread): State {
    if t !in s.threads || !s.threads[t].CibaBind? then s
    else
      var CibaBind(id, row, now, rp) := s.threads[t];
      if row.binding.None? || row.binding.value !in s.bindings then Stop(s, t)
      else Goto(s, t, CibaCas(id, row, GrantOf(row, s.bindings[row.binding.value].fixed.assurance, now), rp))
  }

  /** `UPDATE ... SET consumed WHERE status = 'approved'`; both redemption paths run it. */
  function Redeem(s: State, t: Thread, id: Id, grant: Grant, next: Pc): State {
    if id !in s.txns || s.txns[id].status != Approved then Stop(s, t)
    else
      var cause := if id in s.approvals then s.approvals[id] else 0;
      Record(s.(txns := s.txns[id := s.txns[id].(status := Consumed)]), t, Redeemed(id, cause, grant), Some(next))
  }

  function CibaGrantConsumes(s: State, t: Thread): State {
    if t !in s.threads || !s.threads[t].CibaCas? then s
    else
      var CibaCas(id, row, grant, rp) := s.threads[t];
      Redeem(s, t, id, grant, Mint(id, grant, None, |s.log|, rp))
  }

  function PollReads(s: State, t: Thread, id: Id): State {
    if t in s.threads || id !in s.txns || s.txns[id].fixed.flow != CodeFlow || s.txns[id].status != Approved then s
    else Goto(s, t, PollStash(id, s.txns[id], s.clock))
  }

  function PollReadsStash(s: State, t: Thread): State {
    if t !in s.threads || !s.threads[t].PollStash? then s
    else
      var PollStash(id, row, now) := s.threads[t];
      if id !in s.stashes then Stop(s, t) else Goto(s, t, PollBind(id, row, s.stashes[id], now))
  }

  function PollReadsBinding(w: World, s: State, t: Thread): State {
    if t !in s.threads || !s.threads[t].PollBind? then s
    else
      var PollBind(id, row, stash, now) := s.threads[t];
      if row.binding.None? || row.binding.value !in s.bindings then Stop(s, t)
      else
        Goto(s, t,
            PollCas(id, GrantOf(row, s.bindings[row.binding.value].fixed.assurance, now), stash, now + w.codeTtl))
  }

  function PollConsumes(s: State, t: Thread): State {
    if t !in s.threads || !s.threads[t].PollCas? then s
    else
      var PollCas(id, grant, stash, expiresAt) := s.threads[t];
      Redeem(s, t, id, grant, PollInsert(id, grant, stash, expiresAt, |s.log|))
  }

  function PollInserts(s: State, t: Thread, code: Id): State {
    if t !in s.threads || !s.threads[t].PollInsert? || code in s.used then s
    else
      var PollInsert(id, grant, stash, expiresAt, at) := s.threads[t];
      var row := Code(id, |s.log|, grant, stash, expiresAt, false);
      Record(s.(codes := s.codes[code := row], used := s.used + {code}), t, CodeIssued(code, at, row), None)
  }

  /**
   * `rp` is the authenticated client; `presented` holds the S256 hash of the verifier and the redirect URI of the token
   * request.
   */
  function CodeGrantReads(s: State, t: Thread, code: Id, rp: Id, presented: Pkce): State {
    if t in s.threads || code !in s.codes || s.codes[code].grant.rp != rp || s.codes[code].consumed
       || s.codes[code].expiresAt <= s.clock || s.codes[code].stash.pkce != presented then s
    else Goto(s, t, CodeCas(code, presented, s.clock, rp))
  }

  function CodeGrantConsumes(s: State, t: Thread): State {
    if t !in s.threads || !s.threads[t].CodeCas? then s
    else
      var CodeCas(code, presented, now, rp) := s.threads[t];
      if code !in s.codes || s.codes[code].consumed then Stop(s, t)
      else
        var row := s.codes[code];
        Record(s.(codes := s.codes[code := row.(consumed := true)]), t,
               CodeRedeemed(code, row.issuedAt, presented, now),
                   Some(Mint(row.txn, row.grant, row.stash.oidcNonce, |s.log|, rp)))
  }

  function Mints(s: State, t: Thread): State {
    if t !in s.threads || !s.threads[t].Mint? then s
    else
      var Mint(id, grant, oidcNonce, at, rp) := s.threads[t];
      Record(s, t, Token(id, at, grant, oidcNonce, rp), None)
  }

  // --------------------------------------------------------------------- runs

  /** Steps around a request: the rows, challenges and signatures it will be about. */
  datatype RequestStep =
    | TickStep(delta: nat) | CreateStep(t: Thread, id: Id, fixed: Request) | PutStashStep(t: Thread)
    | DropStashStep(id: Id) | EnrolStep(t: Thread, id: Id, bindingKey: BindingKey) | RevokeStep(id: Id)
    | ListPendingStep(t: Thread, citizen: Id, binding: Id, id: Id) | LoginChallengeStep(t: Thread, binding: Id)
    | IssueStep(t: Thread, id: Id, nonce: string) | DropChallengeStep(id: Id) | ClientSignStep(key: Key, act: Act)
    | OtherSignStep(key: Key, payload: string) | SweepStep(citizen: Id, write: SweepWrite)

  function ApplyRequest(w: World, s: State, step: RequestStep): State {
    match step
    case TickStep(delta) => s.(clock := s.clock + delta)
    case CreateStep(t, id, fixed) => Create(s, t, id, fixed)
    case PutStashStep(t) => PutStash(s, t)
    case DropStashStep(id) => s.(stashes := s.stashes - {id})
    case EnrolStep(t, id, fixed) => Enrol(s, t, id, fixed)
    case RevokeStep(id) => RevokeDevice(s, id)
    case ListPendingStep(t, citizen, binding, id) => ListPending(s, t, citizen, binding, id)
    case LoginChallengeStep(t, binding) => StartLoginChallenge(s, t, binding)
    case IssueStep(t, id, nonce) => Issue(s, t, id, nonce)
    case DropChallengeStep(id) => s.(challenges := s.challenges - {id})
    case ClientSignStep(key, act) => ClientSign(s, key, act)
    case OtherSignStep(key, payload) => OtherSign(w, s, key, payload)
    case SweepStep(citizen, write) => SweepWrites(s, citizen, write)
  }

  /** Steps of `decision`, `login` and `activate`. */
  datatype HandlerStep =
    | StartDecisionStep(t: Thread, citizen: Id, session: Id, req: Req) | StartHandlerStep(t: Thread, req: Req)
    | ReadTxnStep(t: Thread) | ReadBindingStep(t: Thread) | CheckDueStep(t: Thread) | ReadCitizenStep(t: Thread)
    | SdidAnswerStep(t: Thread, valid: bool) | SdidWriteStep(t: Thread) | SdidRevokeStep(t: Thread)
    | TakeStep(t: Thread) | VerifyStep(t: Thread, signature: nat) | FinishStep(t: Thread)

  function ApplyHandler(w: World, s: State, step: HandlerStep): State {
    match step
    case StartDecisionStep(t, citizen, session, req) => StartDecision(s, t, citizen, session, req)
    case StartHandlerStep(t, req) => StartHandler(s, t, req)
    case ReadTxnStep(t) => DecisionReadsTxn(s, t)
    case ReadBindingStep(t) => HandlerReadsBinding(s, t)
    case CheckDueStep(t) => HandlerChecksDue(w, s, t)
    case ReadCitizenStep(t) => ReassertReadsCitizen(s, t)
    case SdidAnswerStep(t, valid) => SdidAnswers(s, t, valid)
    case SdidWriteStep(t) => ReassertWrites(s, t)
    case SdidRevokeStep(t) => ReassertRevokes(s, t)
    case TakeStep(t) => HandlerTakes(s, t)
    case VerifyStep(t, signature) => HandlerVerifies(s, t, signature)
    case FinishStep(t) => HandlerFinishes(s, t)
  }

  /** Steps of the token endpoint and the browser's poll; any thread may also fail at any point. */
  datatype EndpointStep =
    | CibaReadStep(t: Thread, id: Id, rp: Id) | CibaExpireStep(t: Thread) | CibaBindStep(t: Thread)
    | CibaConsumeStep(t: Thread) | PollReadStep(t: Thread, id: Id) | PollStashStep(t: Thread)
    | PollBindStep(t: Thread) | PollConsumeStep(t: Thread) | PollInsertStep(t: Thread, id: Id)
    | CodeReadStep(t: Thread, id: Id, rp: Id, presented: Pkce) | CodeConsumeStep(t: Thread) | MintStep(t: Thread)
    | AbortStep(t: Thread)

  function ApplyEndpoint(w: World, s: State, step: EndpointStep): State {
    match step
    case CibaReadStep(t, id, rp) => CibaGrantReads(s, t, id, rp)
    case CibaExpireStep(t) => CibaGrantExpires(s, t)
    case CibaBindStep(t) => CibaGrantReadsBinding(s, t)
    case CibaConsumeStep(t) => CibaGrantConsumes(s, t)
    case PollReadStep(t, id) => PollReads(s, t, id)
    case PollStashStep(t) => PollReadsStash(s, t)
    case PollBindStep(t) => PollReadsBinding(w, s, t)
    case PollConsumeStep(t) => PollConsumes(s, t)
    case PollInsertStep(t, id) => PollInserts(s, t, id)
    case CodeReadStep(t, id, rp, presented) => CodeGrantReads(s, t, id, rp, presented)
    case CodeConsumeStep(t) => CodeGrantConsumes(s, t)
    case MintStep(t) => Mints(s, t)
    case AbortStep(t) => Stop(s, t)
  }

  datatype Step = Around(around: RequestStep) | Handle(handle: HandlerStep) | Endpoint(endpoint: EndpointStep)

  function Apply(w: World, s: State, step: Step): State {
    match step
    case Around(st) => ApplyRequest(w, s, st)
    case Handle(st) => ApplyHandler(w, s, st)
    case Endpoint(st) => ApplyEndpoint(w, s, st)
  }

  /** The state after a run. A step that is not enabled changes nothing, so every sequence of steps is a run. */
  function Exec(w: World, steps: seq<Step>): State {
    if steps == [] then Init() else Apply(w, Exec(w, steps[..|steps| - 1]), steps[|steps| - 1])
  }
}
