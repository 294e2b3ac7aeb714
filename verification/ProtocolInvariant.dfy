/** What every step of the protocol keeps. */
module ProtocolInvariant {
  import opened Common
  import opened Challenge
  import opened Protocol

  // -------------------------------------------------- what one log entry means

  /** Entry `bind` holds the binding that request `req` read. */
  predicate BindAt(log: seq<Event>, bind: int, req: Req) {
    0 <= bind < |log| && log[bind].BindRead? && log[bind].req == req
  }

  predicate FreshAt(log: seq<Event>, i: int, req: Req, bind: int) {
    0 <= i < |log| && log[i].Fresh? && log[i].req == req && log[i].bind == bind
  }

  predicate TakenAt(log: seq<Event>, i: int, req: Req, bind: int) {
    0 <= i < |log| && log[i].Taken? && log[i].req == req && log[i].bind == bind
  }

  predicate VerifiedAt(log: seq<Event>, i: int, req: Req, bind: int) {
    0 <= i < |log| && log[i].Verified? && log[i].req == req && log[i].bind == bind
  }

  /** A decision read a pending, unexpired transaction of the session's citizen. */
  predicate TxnReadAt(log: seq<Event>, i: int, req: Req) {
    0 <= i < |log| && log[i].TxnRead? && log[i].req == req
  }

  predicate TxnReadOk(e: Event)
    requires e.TxnRead?
  {
    && e.req.purpose.IsCiba() && ColonFree(e.req.purpose.authReqId)
    && e.row.status == Pending && e.row.fixed.expiresAt > e.start && e.row.fixed.citizen == e.citizen
  }

  predicate BindReadOk(log: seq<Event>, e: Event)
    requires e.BindRead?
  {
    match e.req.purpose
    case Activation => e.prev == -1 && e.found.status == Waiting
    case Login => e.prev == -1 && e.found.status == Active
    case Attestation => false
    case _ =>
      && TxnReadAt(log, e.prev, e.req) && e.found.status == Active
      && e.found.fixed.citizen == log[e.prev].citizen
      && AlMeets(e.found.fixed.assurance, log[e.prev].row.fixed.requestedAl)
  }

  predicate FreshOk(w: World, log: seq<Event>, e: Event)
    requires e.Fresh?
  {
    && BindAt(log, e.bind, e.req)
    && (if e.req.purpose.Login? then VerifiedAt(log, e.prev, e.req, e.bind)
        else e.req.purpose.CibaApprove? && e.prev == e.bind)
    && (e.contact.Cadence? ==>
          && e.contact.now - LastSdidContact(log[e.bind].found) < w.reverifyInterval
          && (TxnReadAt(log, log[e.bind].prev, e.req) ==> log[log[e.bind].prev].row.fixed.requestedAl != AL3))
  }

  predicate TakenOk(log: seq<Event>, e: Event)
    requires e.Taken?
  {
    && BindAt(log, e.bind, e.req)
    && (if e.req.purpose.CibaApprove? then FreshAt(log, e.prev, e.req, e.bind) else e.prev == e.bind)
    && e.record.purpose == StoredPurpose(e.req.purpose) && e.record.binding == e.req.binding
    && e.record.issuedAt < |log|
    && log[e.record.issuedAt] == Issued(e.record.purpose, e.req.challenge, e.record.nonce, e.record.binding)
  }

  predicate VerifiedOk(log: seq<Event>, e: Event)
    requires e.Verified?
  {
    && BindAt(log, e.bind, e.req) && TakenAt(log, e.prev, e.req, e.bind)
    && e.payload == BuildChallengePayload(e.req.purpose, e.req.challenge, log[e.prev].record.nonce)
    && e.signature < |log| && log[e.signature].Signed?
    && log[e.signature].key == log[e.bind].found.fixed.key && log[e.signature].payload == e.payload
  }

  predicate FinishedOk(log: seq<Event>, e: Event)
    requires e.Finished?
  {
    && BindAt(log, e.bind, e.req)
    && (if e.req.purpose.Login? then FreshAt(log, e.prev, e.req, e.bind) else VerifiedAt(log, e.prev, e.req, e.bind))
  }

  /** What entry `cause` approved, if it approved transaction `txn`. */
  function Approval(log: seq<Event>, cause: int, txn: Id): Option<Grant> {
    if !(0 <= cause < |log| && log[cause].Finished? && log[cause].req.purpose == CibaApprove(txn)) then None
    else
      var req, bind := log[cause].req, log[cause].bind;
      if !BindAt(log, bind, req) || !TxnReadAt(log, log[bind].prev, req) then None
      else
        var read := log[log[bind].prev];
        Some(Grant(read.row.fixed.rp, read.row.fixed.citizen, read.row.fixed.scopes, log[bind].found.fixed.assurance,
            read.start))
  }

  predicate CodeIssuedOk(log: seq<Event>, e: Event)
    requires e.CodeIssued?
  {
    && 0 <= e.prev < |log| && log[e.prev].Redeemed?
    && log[e.prev].txn == e.issued.txn && log[e.prev].grant == e.issued.grant
    && e.issued.issuedAt == |log| && !e.issued.consumed
  }

  predicate CodeRedeemedOk(log: seq<Event>, e: Event)
    requires e.CodeRedeemed?
  {
    && e.cause < |log| && log[e.cause].CodeIssued? && log[e.cause].code == e.code
    && e.presented == log[e.cause].issued.stash.pkce && e.at < log[e.cause].issued.expiresAt
  }

  /**
   * A token is minted from a redeemed transaction, directly or through a redeemed code, whose nonce it then carries.
   */
  predicate MintsFrom(log: seq<Event>, at: int, txn: Id, grant: Grant, oidcNonce: Option<string>) {
    && 0 <= at < |log|
    && match log[at]
       case Redeemed(id, _, g) => id == txn && g == grant && oidcNonce == None
       case CodeRedeemed(_, cause, _, _) =>
         && cause < |log| && log[cause].CodeIssued? && log[cause].issued.txn == txn && log[cause].issued.grant == grant
         && log[cause].issued.stash.oidcNonce == oidcNonce
       case _ => false
  }

  /** An entry is justified by the entries before it. */
  predicate EventOk(w: World, log: seq<Event>, e: Event) {
    match e
    case Issued(_, challenge, nonce, _) => ColonFree(challenge) && ColonFree(nonce)
    case Signed(key, payload, client) =>
      if client.None? then key !in w.honest
      else payload == BuildChallengePayload(client.value.purpose, client.value.challenge, client.value.nonce)
    case TxnRead(_, _, _, _) => TxnReadOk(e)
    case BindRead(_, _, _) => BindReadOk(log, e)
    case Fresh(_, _, _, _) => FreshOk(w, log, e)
    case Taken(_, _, _, _) => TakenOk(log, e)
    case Verified(_, _, _, _, _) => VerifiedOk(log, e)
    case Finished(_, _, _, _) => FinishedOk(log, e)
    case Redeemed(txn, cause, grant) => Approval(log, cause, txn) == Some(grant)
    case CodeIssued(_, _, _) => CodeIssuedOk(log, e)
    case CodeRedeemed(_, _, _, _) => CodeRedeemedOk(log, e)
    case Token(txn, prev, grant, oidcNonce, client) => MintsFrom(log, prev, txn, grant, oidcNonce) && client == grant.rp
    case Swept(_, _) => true
  }

  predicate LogOk(w: World, log: seq<Event>) {
    forall i :: 0 <= i < |log| ==> EventOk(w, log[..i], log[i])
  }

  // ---------------------------------------------------- rows agree with the log

  predicate SnapshotsOk(s: State) {
    forall i :: 0 <= i < |s.log| ==> SnapshotOk(s, s.log[i])
  }

  predicate SnapshotOk(s: State, e: Event) {
    match e
    case TxnRead(req, start, _, row) =>
      && req.purpose.IsCiba() && req.purpose.authReqId in s.txns && s.txns[req.purpose.authReqId].fixed == row.fixed
    case BindRead(req, _, found) => req.binding in s.bindings && s.bindings[req.binding].fixed == found.fixed
    case _ => true
  }

  predicate WasApproved(row: Txn) { row.status == Approved || row.status == Consumed }

  /** The row of an approved transaction holds what its approval decided. */
  predicate ApprovedRow(s: State, id: Id, row: Txn) {
    && id in s.approvals
    && Approval(s.log, s.approvals[id], id).Some?
    && var g := Approval(s.log, s.approvals[id], id).value;
       var b := s.log[s.approvals[id]].req.binding;
       && row.binding == Some(b) && b in s.bindings && s.bindings[b].fixed.assurance == g.acr
       && g == GrantOf(row, g.acr, 0) && row.resolvedAt.Some?
  }

  predicate TxnsOk(s: State) {
    forall id | id in s.txns ::
      id in s.used && ColonFree(id) && (WasApproved(s.txns[id]) ==> ApprovedRow(s, id, s.txns[id]))
  }

  predicate CodeRowOk(s: State, code: Id) {
    && code in s.codes && code in s.used
    && s.codes[code].issuedAt < |s.log| && s.log[s.codes[code].issuedAt].CodeIssued?
    && s.log[s.codes[code].issuedAt].code == code
    && s.log[s.codes[code].issuedAt].issued == s.codes[code].(consumed := false)
  }

  predicate CodesOk(s: State) { forall code | code in s.codes :: CodeRowOk(s, code) }

  predicate RecordOk(s: State, c: Id, r: ChallengeRow) {
    && c in s.used && r.issuedAt < |s.log| && s.log[r.issuedAt] == Issued(r.purpose, c, r.nonce, r.binding)
  }

  predicate ChallengesOk(s: State) { forall c | c in s.challenges :: RecordOk(s, c, s.challenges[c]) }

  // -------------------------------------------------------------- single use

  /** The row state an entry leaves behind, which keeps a second entry of its kind away. */
  predicate Spent(s: State, i: int, e: Event) {
    match e
    case Taken(req, _, _, _) => req.challenge in s.used && req.challenge !in s.challenges
    case Finished(req, _, _, _) =>
      req.purpose.IsCiba() ==>
        && req.purpose.authReqId in s.txns
        && (if req.purpose.CibaApprove? then WasApproved(s.txns[req.purpose.authReqId])
            else s.txns[req.purpose.authReqId].status == Denied)
    case Redeemed(txn, _, _) => txn in s.txns && s.txns[txn].status == Consumed
    case CodeIssued(code, _, _) => code in s.codes && s.codes[code].issuedAt == i
    case CodeRedeemed(code, _, _, _) => code in s.codes && s.codes[code].consumed
    case _ => true
  }

  predicate SpentOk(s: State) { forall i :: 0 <= i < |s.log| ==> Spent(s, i, s.log[i]) }

  /** Two entries that would use the same thing twice. */
  predicate Clash(e: Event, f: Event) {
    match e
    case Taken(req, _, _, _) => f.Taken? && f.req.challenge == req.challenge
    case Finished(req, _, _, _) =>
      f.Finished? && req.purpose.IsCiba() && f.req.purpose.IsCiba() && f.req.purpose.authReqId == req.purpose.authReqId
    case Redeemed(txn, _, _) => f.Redeemed? && f.txn == txn
    case CodeRedeemed(code, _, _, _) => f.CodeRedeemed? && f.code == code
    case _ => false
  }

  predicate OnceOk(log: seq<Event>) { forall i, j :: 0 <= i < j < |log| ==> !Clash(log[i], log[j]) }

  // ---------------------------------------------------------- linear evidence

  /** The entry a thread holds. */
  function Held(pc: Pc): int {
    match pc
    case Handling(_, _, _, _, _, at, _) => at
    case PollInsert(_, _, _, _, at) => at
    case Mint(_, _, _, at, _) => at
    case _ => -1
  }

  /** The entry an entry used up. */
  function Uses(e: Event): int {
    match e
    case BindRead(_, prev, _) => prev
    case Fresh(_, prev, _, _) => prev
    case Taken(_, prev, _, _) => prev
    case Verified(_, prev, _, _, _) => prev
    case Finished(_, prev, _, _) => prev
    case CodeIssued(_, prev, _) => prev
    case Token(_, prev, _, _, _) => prev
    case _ => -1
  }

  /** Every entry is held by at most one thread, or used up by at most one entry, never both. */
  predicate Linear(s: State) {
    && (forall t | t in s.threads :: -1 <= Held(s.threads[t]) < |s.log|)
    && (forall i :: 0 <= i < |s.log| ==> -1 <= Uses(s.log[i]) < i)
    && (forall t, u | t in s.threads && u in s.threads && t != u ::
          Held(s.threads[t]) == -1 || Held(s.threads[t]) != Held(s.threads[u]))
    && (forall t, i | t in s.threads && 0 <= i < |s.log| ::
          Held(s.threads[t]) == -1 || Uses(s.log[i]) != Held(s.threads[t]))
    && (forall i, j :: 0 <= i < j < |s.log| ==> Uses(s.log[i]) == -1 || Uses(s.log[i]) != Uses(s.log[j]))
  }

  // ------------------------------------------------------------------ threads

  predicate HandlingOk(s: State, pc: Pc)
    requires pc.Handling?
  {
    var p := pc.req.purpose;
    && !p.Attestation?
    && match pc.stage
       case ReadTxn => p.IsCiba() && pc.at == -1 && pc.session in s.bindings
           && s.bindings[pc.session].fixed.citizen == pc.citizen
       case ReadBinding =>
         if p.IsCiba() then
           && TxnReadAt(s.log, pc.at, pc.req) && s.log[pc.at].start == pc.start && s.log[pc.at].citizen == pc.citizen
           && pc.req.binding in s.bindings && s.bindings[pc.req.binding].fixed.citizen == pc.citizen
         else pc.at == -1
       case Take =>
         && BindAt(s.log, pc.bind, pc.req) && StartOk(s.log, pc)
         && if p.CibaApprove? then FreshAt(s.log, pc.at, pc.req, pc.bind) else pc.at == pc.bind
       case Verify => BindAt(s.log, pc.bind, pc.req) && StartOk(s.log, pc) && TakenAt(s.log, pc.at, pc.req, pc.bind)
       case Finish =>
         && BindAt(s.log, pc.bind, pc.req) && StartOk(s.log, pc)
         && if p.Login? then FreshAt(s.log, pc.at, pc.req, pc.bind) else VerifiedAt(s.log, pc.at, pc.req, pc.bind)
       case _ =>
         && BindAt(s.log, pc.bind, pc.req) && StartOk(s.log, pc)
         && if p.Login? then VerifiedAt(s.log, pc.at, pc.req, pc.bind) else p.CibaApprove? && pc.at == pc.bind
  }

  /** A decision still knows when it started. */
  predicate StartOk(log: seq<Event>, pc: Pc)
    requires pc.Handling? && BindAt(log, pc.bind, pc.req)
  {
    pc.req.purpose.IsCiba() ==>
      TxnReadAt(log, log[pc.bind].prev, pc.req) && log[log[pc.bind].prev].start == pc.start
  }

  /** A row read as approved is still the approved row, up to being consumed. */
  predicate ApprovedSnapshot(s: State, id: Id, row: Txn) {
    && row.status == Approved && id in s.txns && WasApproved(s.txns[id])
    && row.fixed == s.txns[id].fixed && row.binding == s.txns[id].binding && row.resolvedAt == s.txns[id].resolvedAt
  }

  /** What a redemption is about to grant is what the approval decided. */
  predicate GrantReady(s: State, id: Id, grant: Grant) {
    id in s.txns && WasApproved(s.txns[id]) && id in s.approvals && Approval(s.log, s.approvals[id], id) == Some(grant)
  }

  predicate PcOk(s: State, pc: Pc) {
    match pc
    case Handling(_, _, _, _, _, _, _) => HandlingOk(s, pc)
    case CibaBind(id, row, _, client) => ApprovedSnapshot(s, id, row) && row.fixed.rp == client
    case PollStash(id, row, _) => ApprovedSnapshot(s, id, row)
    case PollBind(id, row, _, _) => ApprovedSnapshot(s, id, row)
    case CibaCas(id, _, grant, client) => GrantReady(s, id, grant) && grant.rp == client
    case PollCas(id, grant, _, _) => GrantReady(s, id, grant)
    case PollInsert(id, grant, _, _, at) =>
      0 <= at < |s.log| && s.log[at].Redeemed? && s.log[at].txn == id && s.log[at].grant == grant
    case CodeCas(code, presented, now, client) =>
      && code in s.codes && s.codes[code].stash.pkce == presented && s.codes[code].grant.rp == client
      && now < s.codes[code].expiresAt
    case Mint(id, grant, oidcNonce, at, client) => MintsFrom(s.log, at, id, grant, oidcNonce) && grant.rp == client
    case _ => true
  }

  predicate ThreadsOk(s: State) { forall t | t in s.threads :: PcOk(s, s.threads[t]) }

  predicate Inv(w: World, s: State) {
    && LogOk(w, s.log) && SnapshotsOk(s) && TxnsOk(s) && CodesOk(s) && ChallengesOk(s)
    && SpentOk(s) && OnceOk(s.log) && Linear(s) && ThreadsOk(s)
  }
}
