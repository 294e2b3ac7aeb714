/** What holds of every run of the authorisation protocol. */
module ProtocolTheorems {
  import opened Common
  import opened Challenge
  import opened Protocol
  import opened ProtocolInvariant
  import opened ProtocolPreserved
  import opened ProtocolRuns

  // ------------------------------------------------------- one signed request

  /** The entries one accepted request left behind. `recent` is where SDID was found recent enough, or asked. */
  datatype Evidence = Evidence(read: int, bind: int, recent: int, taken: int, verified: int, done: int)

  /** A challenge issued for this purpose and binding was spent on a signature by the binding's key. */
  predicate Proved(log: seq<Event>, ev: Evidence, req: Req) {
    && 0 <= ev.bind < ev.taken < ev.verified < ev.done < |log|
    && log[ev.bind].BindRead? && log[ev.bind].req == req
    && log[ev.taken].Taken? && log[ev.taken].req == req && log[ev.taken].bind == ev.bind
    && log[ev.taken].record.purpose == StoredPurpose(req.purpose) && log[ev.taken].record.binding == req.binding
    && log[ev.verified].Verified? && log[ev.verified].req == req && log[ev.verified].prev == ev.taken
    && log[ev.verified].bind == ev.bind
    && log[ev.done].Finished? && log[ev.done].req == req && log[ev.done].bind == ev.bind
  }

  /** The challenge was issued, and its payload signed, before. */
  predicate Agreed(log: seq<Event>, ev: Evidence, req: Req)
    requires Proved(log, ev, req)
  {
    var record, v := log[ev.taken].record, log[ev.verified];
    && record.issuedAt < ev.taken
    && log[record.issuedAt] == Issued(StoredPurpose(req.purpose), req.challenge, record.nonce, req.binding)
    && v.payload == BuildChallengePayload(req.purpose, req.challenge, record.nonce)
    && v.signature < ev.verified && log[v.signature].Signed?
    && log[v.signature].key == log[ev.bind].found.fixed.key && log[v.signature].payload == v.payload
  }

  /** SDID saw the citizen recently, or has just answered that the identity is valid. */
  predicate Reverified(w: World, log: seq<Event>, ev: Evidence, req: Req)
    requires Proved(log, ev, req)
  {
    && ev.bind < ev.recent < ev.done && log[ev.recent].Fresh? && log[ev.recent].req == req
    && log[ev.recent].bind == ev.bind
    && match log[ev.recent].contact
       case Cadence(now) => now - LastSdidContact(log[ev.bind].found) < w.reverifyInterval
       case Answered(_) => true
  }

  /** The decision read the transaction pending and unexpired, and the binding active and the same citizen's. */
  predicate Entitled(log: seq<Event>, ev: Evidence, req: Req)
    requires Proved(log, ev, req)
  {
    && 0 <= ev.read < ev.bind && log[ev.read].TxnRead? && log[ev.read].req == req
    && var read, found := log[ev.read], log[ev.bind].found;
       && read.row.status == Pending && read.row.fixed.expiresAt > read.start
       && found.status == Active && found.fixed.citizen == read.row.fixed.citizen
       && Suffices(found.fixed.assurance, read.row.fixed.requestedAl)
  }

  /** An AL3 approval had SDID's answer; age alone was not enough. */
  predicate StepUpAnswered(log: seq<Event>, ev: Evidence, req: Req)
    requires Proved(log, ev, req) && Entitled(log, ev, req)
  {
    log[ev.read].row.fixed.requestedAl == AL3 ==>
        0 <= ev.recent < |log| && log[ev.recent].Fresh? && log[ev.recent].contact.Answered?
  }

  /** The evidence behind a finished request, followed back through the log. */
  function EvidenceOf(log: seq<Event>, done: int): (ev: Evidence)
    requires 0 <= done < |log| && log[done].Finished?
  {
    var e := log[done];
    if !(e.bind < |log| && log[e.bind].BindRead? && 0 <= e.prev < |log|) then Evidence(-1, -1, -1, -1, -1, done)
    else
      var verified := if e.req.purpose.Login? && log[e.prev].Fresh? then log[e.prev].prev else e.prev;
      if !(0 <= verified < |log| && log[verified].Verified?) then Evidence(-1, -1, -1, -1, -1, done)
      else
        var taken := log[verified].prev;
        if !(0 <= taken < |log| && log[taken].Taken?) then Evidence(-1, -1, -1, -1, -1, done)
        else
          var recent := if e.req.purpose.Login? then e.prev else log[taken].prev;
          Evidence(log[e.bind].prev, e.bind, recent, taken, verified, done)
  }

  /** An entry's justification, on the whole log instead of the part before it. */
  lemma Justified(w: World, s: State, i: nat)
    requires Inv(w, s) && i < |s.log|
    ensures EventOk(w, s.log[..i], s.log[i])
  {
    hide EventOk;
  }

  lemma FinishedEvidence(w: World, s: State, done: nat)
    requires Inv(w, s) && done < |s.log| && s.log[done].Finished?
    ensures var ev, req := EvidenceOf(s.log, done), s.log[done].req;
      && Proved(s.log, ev, req) && Agreed(s.log, ev, req)
      && (req.purpose.Login? || req.purpose.CibaApprove? ==> Reverified(w, s.log, ev, req))
      && (req.purpose.IsCiba() ==> Entitled(s.log, ev, req))
      && (req.purpose.CibaApprove? ==> StepUpAnswered(s.log, ev, req))
  {
    hide Inv, BuildChallengePayload, StoredPurpose;
    var e := s.log[done];
    Justified(w, s, done);
    Justified(w, s, e.bind);
    Justified(w, s, e.prev);
    var verified := if e.req.purpose.Login? then s.log[e.prev].prev else e.prev;
    Justified(w, s, verified);
    var taken := s.log[verified].prev;
    Justified(w, s, taken);
    if e.req.purpose.CibaApprove? { Justified(w, s, s.log[taken].prev); }
    if e.req.purpose.IsCiba() { Justified(w, s, s.log[e.bind].prev); }
  }

  // ---------------------------------------------------------------- agreement

  /** What the client of an honest key did, if entry `i` is its signature. */
  predicate ClientRan(log: seq<Event>, i: int, act: Act) {
    0 <= i < |log| && log[i].Signed? && log[i].client == Some(act)
  }

  lemma Colonless(w: World, s: State, ev: Evidence, req: Req)
    requires Inv(w, s) && Proved(s.log, ev, req) && Agreed(s.log, ev, req)
    requires (req.purpose.IsCiba() ==> Entitled(s.log, ev, req))
    ensures ColonFreePurpose(req.purpose) && ColonFree(req.challenge) && ColonFree(s.log[ev.taken].record.nonce)
  {
    hide Inv, BuildChallengePayload, StoredPurpose;
    Justified(w, s, s.log[ev.taken].record.issuedAt);
    if req.purpose.IsCiba() { Justified(w, s, ev.read); }
  }

  /** A signature by an unmodified client over this payload means the client ran exactly this request. */
  lemma HonestSignature(w: World, s: State, ev: Evidence, req: Req)
    requires Inv(w, s) && Proved(s.log, ev, req) && Agreed(s.log, ev, req)
    requires (req.purpose.IsCiba() ==> Entitled(s.log, ev, req))
    requires s.log[ev.bind].found.fixed.key in w.honest
    ensures ClientRan(s.log, s.log[ev.verified].signature,
        Act(req.purpose, req.challenge, s.log[ev.taken].record.nonce))
  {
    hide Inv, BuildChallengePayload, StoredPurpose;
    Colonless(w, s, ev, req);
    var sig := s.log[ev.verified].signature;
    Justified(w, s, sig);
    var act := s.log[sig].client.value;
    PayloadInjective(req.purpose, req.challenge, s.log[ev.taken].record.nonce, act.purpose, act.challenge, act.nonce);
  }

  /**
   * Agreement: every accepted activation, login or decision answers a challenge issued earlier for that purpose and
   * binding, with a signature by the key the handler read for the binding; and if an unmodified client holds that key,
   * the client ran that very request, with that challenge and nonce.
   */
  lemma AcceptedRequestsAgree(w: World, steps: seq<Step>, done: nat)
    requires done < |Exec(w, steps).log| && Exec(w, steps).log[done].Finished?
    ensures var log := Exec(w, steps).log;
      var ev, req := EvidenceOf(log, done), log[done].req;
      && Proved(log, ev, req) && Agreed(log, ev, req)
      && (log[ev.bind].found.fixed.key in w.honest ==>
            ClientRan(log, log[ev.verified].signature, Act(req.purpose, req.challenge, log[ev.taken].record.nonce)))
      && Happened(w, steps, ev.bind) && Happened(w, steps, ev.taken) && Happened(w, steps, done)
  {
    hide Inv, Agreed, Entitled, EvidenceOf, Exec, Happened;
    var s := Exec(w, steps);
    ExecInv(w, steps);
    FinishedEvidence(w, s, done);
    var ev, req := EvidenceOf(s.log, done), s.log[done].req;
    if s.log[ev.bind].found.fixed.key in w.honest { HonestSignature(w, s, ev, req); }
    LogIsTrue(w, steps, ev.bind);
    LogIsTrue(w, steps, ev.taken);
    LogIsTrue(w, steps, done);
  }

  lemma UsedOnce(w: World, s: State, i: nat, j: nat)
    requires Inv(w, s) && i < |s.log| && j < |s.log| && Uses(s.log[i]) == Uses(s.log[j]) != -1
    ensures i == j
  {
  }

  lemma TakenOnce(w: World, s: State, i: nat, j: nat)
    requires Inv(w, s) && i < |s.log| && j < |s.log| && s.log[i].Taken? && s.log[j].Taken?
    requires s.log[i].req.challenge == s.log[j].req.challenge
    ensures i == j
  {
  }

  /** The same challenge cannot lie behind two verified signatures. */
  lemma VerifiedOnce(w: World, s: State, i: nat, j: nat)
    requires Inv(w, s) && i < |s.log| && j < |s.log| && s.log[i].Verified? && s.log[j].Verified?
    requires s.log[i].req.challenge == s.log[j].req.challenge
    ensures i == j
  {
    hide Inv;
    Justified(w, s, i);
    Justified(w, s, j);
    TakenOnce(w, s, s.log[i].prev, s.log[j].prev);
    UsedOnce(w, s, i, j);
  }

  lemma FinishedOnce(w: World, s: State, i: nat, j: nat)
    requires Inv(w, s) && i < |s.log| && j < |s.log| && s.log[i].Finished? && s.log[j].Finished?
    requires s.log[i].req.challenge == s.log[j].req.challenge
    ensures i == j
  {
    hide Inv, EvidenceOf, Reverified, StepUpAnswered, Agreed, Entitled;
    FinishedEvidence(w, s, i);
    FinishedEvidence(w, s, j);
    var v, u := EvidenceOf(s.log, i).verified, EvidenceOf(s.log, j).verified;
    VerifiedOnce(w, s, v, u);
    LastUse(w, s, i);
    LastUse(w, s, j);
    if s.log[i].req.purpose.Login? { UsedOnce(w, s, s.log[i].prev, s.log[j].prev); }
    UsedOnce(w, s, i, j);
  }

  lemma LastUse(w: World, s: State, done: nat)
    requires Inv(w, s) && done < |s.log| && s.log[done].Finished?
    ensures var e, v := s.log[done], EvidenceOf(s.log, done).verified;
      && 0 <= e.prev < done
      && (if e.req.purpose.Login? then s.log[e.prev].Fresh? && s.log[e.prev].prev == v && v >= 0 else e.prev == v)
  {
    hide Inv;
    Justified(w, s, done);
    Justified(w, s, s.log[done].prev);
    FinishedEvidence(w, s, done);
  }

  /**
   * Injectivity: two accepted requests never share a challenge, a payload, the entry that issued their challenge or the
   * signature they were accepted on. In particular one CIBA challenge yields at most one of approve and deny.
   */
  lemma AcceptedRequestsDiffer(w: World, steps: seq<Step>, i: nat, j: nat)
    requires i < j < |Exec(w, steps).log| && Exec(w, steps).log[i].Finished? && Exec(w, steps).log[j].Finished?
    ensures var log := Exec(w, steps).log;
      var ei, ej := EvidenceOf(log, i), EvidenceOf(log, j);
      && Proved(log, ei, log[i].req) && Proved(log, ej, log[j].req)
      && log[i].req.challenge != log[j].req.challenge
      && log[ei.verified].payload != log[ej.verified].payload
      && log[ei.taken].record.issuedAt != log[ej.taken].record.issuedAt
      && log[ei.verified].signature != log[ej.verified].signature
  {
    hide Inv, EvidenceOf, Reverified, StepUpAnswered, Entitled, Exec, BuildChallengePayload, StoredPurpose;
    var s := Exec(w, steps);
    ExecInv(w, steps);
    FinishedEvidence(w, s, i);
    FinishedEvidence(w, s, j);
    if s.log[i].req.challenge == s.log[j].req.challenge { FinishedOnce(w, s, i, j); }
    var ei, ej, p, q := EvidenceOf(s.log, i), EvidenceOf(s.log, j), s.log[i].req, s.log[j].req;
    Colonless(w, s, ei, p);
    if s.log[ei.verified].payload == s.log[ej.verified].payload {
      PayloadInjective(p.purpose, p.challenge, s.log[ei.taken].record.nonce, q.purpose, q.challenge,
          s.log[ej.taken].record.nonce);
    }
  }

  /** Even a decision that then lost its compare-and-set spent its challenge: no challenge is verified against twice. */
  lemma ChallengesVerifyOnce(w: World, steps: seq<Step>, i: nat, j: nat)
    requires i < j < |Exec(w, steps).log| && Exec(w, steps).log[i].Verified? && Exec(w, steps).log[j].Verified?
    ensures Exec(w, steps).log[i].req.challenge != Exec(w, steps).log[j].req.challenge
  {
    hide Inv, Exec;
    ExecInv(w, steps);
    if Exec(w, steps).log[i].req.challenge == Exec(w, steps).log[j].req.challenge {
      VerifiedOnce(w, Exec(w, steps), i, j);
    }
  }

  // ------------------------------------------------------------ re-verification

  /**
   * Every applied approval and every minted session comes from a handler in which SDID's last contact was younger than
   * the interval, on the binding row and at the clock that handler read, or in which SDID had just answered valid. An
   * AL3 approval always has the answer.
   */
  lemma ApprovalsAndSessionsAreReverified(w: World, steps: seq<Step>, done: nat)
    requires done < |Exec(w, steps).log| && Exec(w, steps).log[done].Finished?
    requires Exec(w, steps).log[done].req.purpose.Login? || Exec(w, steps).log[done].req.purpose.CibaApprove?
    ensures var log := Exec(w, steps).log;
      var ev, req := EvidenceOf(log, done), log[done].req;
      && Proved(log, ev, req) && Reverified(w, log, ev, req)
      && (req.purpose.CibaApprove? ==> Entitled(log, ev, req) && StepUpAnswered(log, ev, req))
      && Happened(w, steps, ev.bind) && Happened(w, steps, ev.recent) && Happened(w, steps, done)
  {
    hide Inv, Agreed, Entitled, StepUpAnswered, EvidenceOf, Exec, Happened;
    ExecInv(w, steps);
    FinishedEvidence(w, Exec(w, steps), done);
    var ev := EvidenceOf(Exec(w, steps).log, done);
    LogIsTrue(w, steps, ev.bind);
    LogIsTrue(w, steps, ev.recent);
    LogIsTrue(w, steps, done);
  }

  // -------------------------------------------------------------------- tokens

  /** The redemption a token comes from, directly or through a code. */
  function RedemptionOf(log: seq<Event>, i: int): int
    requires 0 <= i < |log| && log[i].Token?
  {
    var p := log[i].prev;
    if !(0 <= p < |log|) || !log[p].CodeRedeemed? then p
    else var c := log[p].cause; if c < |log| && log[c].CodeIssued? then log[c].prev else -1
  }

  lemma TokenRedemption(w: World, s: State, i: nat)
    requires Inv(w, s) && i < |s.log| && s.log[i].Token?
    ensures var r := RedemptionOf(s.log, i);
      && 0 <= r < i && s.log[r].Redeemed? && s.log[r].txn == s.log[i].txn && s.log[r].grant == s.log[i].grant
      && s.log[i].rp == s.log[i].grant.rp
  {
    hide Inv, Approval;
    Justified(w, s, i);
    var p := s.log[i].prev;
    Justified(w, s, p);
    if s.log[p].CodeRedeemed? { Justified(w, s, s.log[p].cause); }
  }

  /** The grant holds what the approval decided: the request's columns, the approving binding's level, its time. */
  predicate GrantsWhatWasApproved(log: seq<Event>, ev: Evidence, req: Req, grant: Grant)
    requires Proved(log, ev, req) && Entitled(log, ev, req)
  {
    var row := log[ev.read].row;
    && grant == Grant(row.fixed.rp, row.fixed.citizen, row.fixed.scopes, log[ev.bind].found.fixed.assurance,
        log[ev.read].start)
    && Suffices(grant.acr, row.fixed.requestedAl)
  }

  lemma RedeemedApproval(w: World, s: State, r: nat)
    requires Inv(w, s) && r < |s.log| && s.log[r].Redeemed?
    ensures s.log[r].cause < r && s.log[s.log[r].cause].Finished?
    ensures var done := s.log[r].cause;
      var ev, req := EvidenceOf(s.log, done), s.log[done].req;
      && req.purpose == CibaApprove(s.log[r].txn)
      && Proved(s.log, ev, req) && Agreed(s.log, ev, req) && Reverified(w, s.log, ev, req) && Entitled(s.log, ev, req)
      && StepUpAnswered(s.log, ev, req) && GrantsWhatWasApproved(s.log, ev, req, s.log[r].grant)
  {
    hide Inv, Agreed, Reverified, StepUpAnswered;
    Justified(w, s, r);
    var done := s.log[r].cause;
    FinishedEvidence(w, s, done);
    hide EvidenceOf;
    var ev := EvidenceOf(s.log, done);
    BindOf(w, s, done);
  }

  lemma BindOf(w: World, s: State, done: nat)
    requires Inv(w, s) && done < |s.log| && s.log[done].Finished?
    ensures var ev := EvidenceOf(s.log, done);
      ev.done == done && ev.bind == s.log[done].bind && 0 <= ev.bind < |s.log| && s.log[ev.bind].BindRead?
      && ev.read == s.log[ev.bind].prev
  {
    hide Inv;
    FinishedEvidence(w, s, done);
  }

  /**
   * A token response implies an earlier approval of its transaction: the deciding handler read the transaction pending
   * and unexpired and the binding active, of the same citizen and strong enough; found SDID's word recent or got it;
   * spent a challenge issued for that request and that binding; verified the binding's signature on the approve
   * payload; and won the compare-and-set on the pending row. The token carries exactly what was approved, and goes to
   * the client that asked for it.
   */
  lemma TokenImpliesApproval(w: World, steps: seq<Step>, i: nat)
    requires i < |Exec(w, steps).log| && Exec(w, steps).log[i].Token?
    ensures var log := Exec(w, steps).log;
      var r := RedemptionOf(log, i);
      && 0 <= r < i && log[r].Redeemed? && log[r].txn == log[i].txn && log[r].cause < r && log[log[r].cause].Finished?
      && var done := log[r].cause;
         var ev, req := EvidenceOf(log, done), log[done].req;
         && req.purpose == CibaApprove(log[i].txn)
         && Proved(log, ev, req) && Agreed(log, ev, req) && Reverified(w, log, ev, req) && Entitled(log, ev, req)
         && StepUpAnswered(log, ev, req) && GrantsWhatWasApproved(log, ev, req, log[i].grant)
         && log[i].rp == log[i].grant.rp
         && Happened(w, steps, ev.read) && Happened(w, steps, ev.bind) && Happened(w, steps, ev.recent)
         && Happened(w, steps, ev.taken) && Happened(w, steps, done) && Happened(w, steps, r)
  {
    hide Inv, EvidenceOf, Agreed, StepUpAnswered, GrantsWhatWasApproved, RedemptionOf, Exec, Happened;
    var s := Exec(w, steps);
    ExecInv(w, steps);
    TokenRedemption(w, s, i);
    var r := RedemptionOf(s.log, i);
    RedeemedApproval(w, s, r);
    var ev := EvidenceOf(s.log, s.log[r].cause);
    LogIsTrue(w, steps, ev.read);
    LogIsTrue(w, steps, ev.bind);
    LogIsTrue(w, steps, ev.recent);
    LogIsTrue(w, steps, ev.taken);
    LogIsTrue(w, steps, s.log[r].cause);
    LogIsTrue(w, steps, r);
  }

  lemma RedeemedOnce(w: World, s: State, i: nat, j: nat)
    requires Inv(w, s) && i < |s.log| && j < |s.log| && s.log[i].Redeemed? && s.log[j].Redeemed?
    requires s.log[i].txn == s.log[j].txn
    ensures i == j
  {
  }

  lemma CodeRedeemedOnce(w: World, s: State, i: nat, j: nat)
    requires Inv(w, s) && i < |s.log| && j < |s.log| && s.log[i].CodeRedeemed? && s.log[j].CodeRedeemed?
    requires s.log[i].code == s.log[j].code
    ensures i == j
  {
  }

  /** Redemptions: at most one for each transaction, over both endpoints, and at most one for each code. */
  lemma RedeemedAtMostOnce(w: World, steps: seq<Step>, i: nat, j: nat)
    requires i < j < |Exec(w, steps).log|
    ensures var log := Exec(w, steps).log;
      && (log[i].Redeemed? && log[j].Redeemed? ==> log[i].txn != log[j].txn)
      && (log[i].CodeRedeemed? && log[j].CodeRedeemed? ==> log[i].code != log[j].code)
  {
    hide Inv, Exec;
    ExecInv(w, steps);
    var s := Exec(w, steps);
    if s.log[i].Redeemed? && s.log[j].Redeemed? && s.log[i].txn == s.log[j].txn { RedeemedOnce(w, s, i, j); }
    if s.log[i].CodeRedeemed? && s.log[j].CodeRedeemed? && s.log[i].code == s.log[j].code {
      CodeRedeemedOnce(w, s, i, j);
    }
  }

  /** The entry that used up a token's redemption: the token itself, or the code in between. */
  lemma TokenUse(w: World, s: State, i: nat) returns (u: nat)
    requires Inv(w, s) && i < |s.log| && s.log[i].Token?
    ensures u < |s.log| && Uses(s.log[u]) == RedemptionOf(s.log, i) != -1
    ensures s.log[s.log[i].prev].CodeRedeemed? ==> s.log[s.log[i].prev].cause == u && s.log[u].CodeIssued?
    ensures !s.log[s.log[i].prev].CodeRedeemed? ==> u == i
    ensures 0 <= s.log[i].prev < |s.log|
  {
    hide Inv, Approval;
    TokenRedemption(w, s, i);
    Justified(w, s, i);
    u := i;
    if s.log[s.log[i].prev].CodeRedeemed? {
      Justified(w, s, s.log[i].prev);
      u := s.log[s.log[i].prev].cause;
    }
  }

  lemma TokenOnce(w: World, s: State, i: nat, j: nat)
    requires Inv(w, s) && i < |s.log| && j < |s.log| && s.log[i].Token? && s.log[j].Token?
    requires s.log[i].txn == s.log[j].txn
    ensures i == j
  {
    hide Inv, RedemptionOf;
    TokenRedemption(w, s, i);
    TokenRedemption(w, s, j);
    RedeemedOnce(w, s, RedemptionOf(s.log, i), RedemptionOf(s.log, j));
    var u := TokenUse(w, s, i);
    var v := TokenUse(w, s, j);
    UsedOnce(w, s, u, v);
    var p, q := s.log[i].prev, s.log[j].prev;
    if s.log[p].CodeRedeemed? && s.log[q].CodeRedeemed? {
      Justified(w, s, p);
      Justified(w, s, q);
      CodeRedeemedOnce(w, s, p, q);
      UsedOnce(w, s, i, j);
    }
  }

  /** A transaction yields at most one token response. */
  lemma AtMostOneToken(w: World, steps: seq<Step>, i: nat, j: nat)
    requires i < j < |Exec(w, steps).log| && Exec(w, steps).log[i].Token? && Exec(w, steps).log[j].Token?
    ensures Exec(w, steps).log[i].txn != Exec(w, steps).log[j].txn
  {
    hide Inv, Exec;
    ExecInv(w, steps);
    if Exec(w, steps).log[i].txn == Exec(w, steps).log[j].txn { TokenOnce(w, Exec(w, steps), i, j); }
  }

  /** A transaction that yielded a token is consumed; a denied, expired, pending or merely approved one yielded none. */
  lemma TokenConsumesTransaction(w: World, steps: seq<Step>, i: nat)
    requires i < |Exec(w, steps).log| && Exec(w, steps).log[i].Token?
    ensures var s := Exec(w, steps); s.log[i].txn in s.txns && s.txns[s.log[i].txn].status == Consumed
  {
    hide Inv, Exec, RedemptionOf;
    var s := Exec(w, steps);
    ExecInv(w, steps);
    TokenRedemption(w, s, i);
    InvEntry(w, s, RedemptionOf(s.log, i));
  }

  /** No token says less than its request asked for: not AL1 where it asked for AL2, and only AL3 where it asked AL3. */
  lemma TokensAreStrongEnough(w: World, steps: seq<Step>, i: nat)
    requires i < |Exec(w, steps).log| && Exec(w, steps).log[i].Token?
    ensures var s := Exec(w, steps); var e := s.log[i];
      && e.txn in s.txns
      && (s.txns[e.txn].fixed.requestedAl == AL2 ==> e.grant.acr != AL1)
      && (s.txns[e.txn].fixed.requestedAl == AL3 ==> e.grant.acr == AL3)
  {
    hide Inv, Exec, RedemptionOf, EvidenceOf, Agreed, Reverified, StepUpAnswered;
    var s := Exec(w, steps);
    ExecInv(w, steps);
    TokenRedemption(w, s, i);
    var r := RedemptionOf(s.log, i);
    RedeemedApproval(w, s, r);
    ReadRow(w, s, EvidenceOf(s.log, s.log[r].cause).read);
  }

  /** A row once read is still there, with its fixed columns. */
  lemma ReadRow(w: World, s: State, i: nat)
    requires Inv(w, s) && i < |s.log| && s.log[i].TxnRead?
    ensures var p := s.log[i].req.purpose;
      p.IsCiba() && p.authReqId in s.txns && s.txns[p.authReqId].fixed == s.log[i].row.fixed
  {
    hide EventOk;
    assert SnapshotOk(s, s.log[i]);
  }
}
