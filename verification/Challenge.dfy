/** The challenge payload of packages/shared/src/protocol.ts, and what makes it unambiguous. */
module Challenge {
  import opened Common

  datatype Purpose =
    | Activation | Login | Attestation
    | CibaApprove(authReqId: string) | CibaDeny(authReqId: string)
  {
    predicate IsCiba() { CibaApprove? || CibaDeny? }
  }

  function PurposeString(p: Purpose): string {
    match p
    case Activation => "activation"
    case Login => "login"
    case Attestation => "attestation"
    case CibaApprove(id) => "ciba-approve:" + id
    case CibaDeny(id) => "ciba-deny:" + id
  }

  function BuildChallengePayload(p: Purpose, challengeId: string, nonce: string): string {
    "sdid-bridge:v1:" + (PurposeString(p) + (":" + (challengeId + (":" + nonce))))
  }

  /** The purpose kept in the challenge record: one CIBA record serves both decisions. */
  function StoredPurpose(p: Purpose): string {
    if p.IsCiba() then "ciba:" + p.authReqId else PurposeString(p)
  }

  predicate ColonFree(s: string) { ':' !in s }

  predicate ColonFreePurpose(p: Purpose) { p.IsCiba() ==> ColonFree(p.authReqId) }

  function Colons(s: string): nat {
    if s == "" then 0 else (if s[0] == ':' then 1 else 0) + Colons(s[1..])
  }

  lemma {:induction false} ColonsConcat(a: string, b: string)
    ensures Colons(a + b) == Colons(a) + Colons(b)
  {
    if a == "" {
      assert a + b == b;
    } else {
      ColonsConcat(a[1..], b);
      assert (a + b)[1..] == a[1..] + b;
    }
  }

  lemma {:induction false} NoColons(s: string)
    ensures Colons(s) == 0 <==> ColonFree(s)
  {
    if s != "" {
      NoColons(s[1..]);
      assert s == [s[0]] + s[1..];
    }
  }

  /** Two strings split at their first colon. */
  lemma {:induction false} SplitAtColon(a: string, x: string, b: string, y: string)
    requires ColonFree(a) && ColonFree(b) && a + (":" + x) == b + (":" + y)
    ensures a == b && x == y
  {
    var s := a + (":" + x);
    assert a == s[..|a|] && b == s[..|b|];
    assert s[|a|] == ':' && s[|b|] == ':';
    assert forall k :: 0 <= k < |b| ==> s[k] != ':';
    assert forall k :: 0 <= k < |a| ==> s[k] != ':';
    assert x == s[|a| + 1..] && y == s[|b| + 1..];
  }

  /** Which of the five purposes a payload is for shows in at most six characters of its third field. */
  lemma SameKind(p: Purpose, q: Purpose, x: string, y: string)
    requires PurposeString(p) + (":" + x) == PurposeString(q) + (":" + y)
    ensures p.Activation? == q.Activation? && p.Login? == q.Login? && p.Attestation? == q.Attestation?
    ensures p.CibaApprove? == q.CibaApprove? && p.CibaDeny? == q.CibaDeny?
  {
    var s, t := PurposeString(p), PurposeString(q);
    var u := s + (":" + x);
    assert |s| >= 5 && |t| >= 5;
    assert u[0] == s[0] == t[0] && u[1] == s[1] == t[1];
    if p.IsCiba() && q.IsCiba() {
      assert |s| >= 6 && |t| >= 6 && u[5] == s[5] == t[5];
    }
  }

  function Tail(p: Purpose, challengeId: string, nonce: string): string {
    (if p.IsCiba() then p.authReqId + ":" else "") + (challengeId + (":" + nonce))
  }

  /** Everything before the tail, fixed by the kind of purpose alone. */
  function Lead(p: Purpose): string {
    match p
    case CibaApprove(_) => "ciba-approve:"
    case CibaDeny(_) => "ciba-deny:"
    case _ => PurposeString(p) + ":"
  }

  lemma PayloadSplit(p: Purpose, c: string, n: string)
    ensures BuildChallengePayload(p, c, n) == "sdid-bridge:v1:" + (Lead(p) + Tail(p, c, n))
    ensures p.IsCiba() ==> Tail(p, c, n) == p.authReqId + (":" + (c + (":" + n)))
  {
    var rest := c + (":" + n);
    if p.IsCiba() {
      Assoc(p.authReqId, ":", rest);
      Assoc(Lead(p), p.authReqId, ":" + rest);
    } else {
      Assoc(PurposeString(p), ":", rest);
      assert "" + rest == rest;
    }
  }

  lemma Assoc(x: string, y: string, z: string)
    ensures (x + y) + z == x + (y + z)
  {
  }

  lemma TailColons(p: Purpose, c: string, n: string)
    ensures Colons(Tail(p, c, n)) >= (if p.IsCiba() then 2 else 1)
    ensures Colons(Tail(p, c, n)) == (if p.IsCiba() then 2 else 1)
       <==> ColonFreePurpose(p) && ColonFree(c) && ColonFree(n)
  {
    assert Colons(":") == 1 && Colons("") == 0;
    ColonsConcat(":", n);
    ColonsConcat(c, ":" + n);
    ColonsConcat(if p.IsCiba() then p.authReqId + ":" else "", c + (":" + n));
    NoColons(c);
    NoColons(n);
    if p.IsCiba() {
      ColonsConcat(p.authReqId, ":");
      NoColons(p.authReqId);
    }
  }

  /**
   * A payload built from colon-free parts determines them, against any other payload: the other side may hold
   * arbitrary strings, as a device that signs whatever identifiers it is shown does.
   */
  lemma PayloadInjective(p: Purpose, c: string, n: string, q: Purpose, d: string, m: string)
    requires ColonFreePurpose(p) && ColonFree(c) && ColonFree(n)
    requires BuildChallengePayload(p, c, n) == BuildChallengePayload(q, d, m)
    ensures p == q && c == d && n == m
  {
    var x, y := BuildChallengePayload(p, c, n), BuildChallengePayload(q, d, m);
    assert PurposeString(p) + (":" + (c + (":" + n))) == x[15..]
        && PurposeString(q) + (":" + (d + (":" + m))) == y[15..];
    SameKind(p, q, c + (":" + n), d + (":" + m));
    PayloadSplit(p, c, n);
    PayloadSplit(q, d, m);
    hide BuildChallengePayload;
    SamePrefix("sdid-bridge:v1:", Lead(p) + Tail(p, c, n), Lead(q) + Tail(q, d, m));
    assert Lead(p) == Lead(q);
    SamePrefix(Lead(p), Tail(p, c, n), Tail(q, d, m));
    TailColons(p, c, n);
    TailColons(q, d, m);
    hide Lead, Colons;
    if p.IsCiba() {
      SplitAtColon(p.authReqId, c + (":" + n), q.authReqId, d + (":" + m));
    } else {
      assert Tail(p, c, n) == c + (":" + n) && Tail(q, d, m) == d + (":" + m);
    }
    SplitAtColon(c, n, d, m);
  }

  /** Moving the split point: a colon in any part gives a second request with the same payload. */
  lemma NonceTwin(p: Purpose, c: string, x: string, y: string)
    ensures BuildChallengePayload(p, c, x + (":" + y)) == BuildChallengePayload(p, c + (":" + x), y)
  {
    Assoc(c, ":" + x, ":" + y);
    Assoc(":", x, ":" + y);
  }

  lemma ChallengeTwin(p: Purpose, x: string, y: string, n: string)
    ensures BuildChallengePayload(p, x + (":" + y), n) == BuildChallengePayload(p, x, y + (":" + n))
  {
    NonceTwin(p, x, y, n);
  }

  lemma PurposeTwin(p: Purpose, q: Purpose, x: string, y: string, c: string, n: string)
    requires p.IsCiba() && p.authReqId == x + (":" + y) && q == (if p.CibaApprove? then CibaApprove(x) else CibaDeny(x))
    ensures BuildChallengePayload(p, c, n) == BuildChallengePayload(q, y + (":" + c), n)
  {
    var lead, rest := Lead(p), ":" + (c + (":" + n));
    assert PurposeString(p) == lead + (x + (":" + y)) && PurposeString(q) == lead + x && Lead(q) == lead;
    assert (lead + (x + (":" + y))) + rest == (lead + x) + (":" + ((y + (":" + c)) + (":" + n)));
  }

  lemma AtColon(s: string) returns (x: string, y: string)
    requires !ColonFree(s)
    ensures s == x + (":" + y) && |x| < |s|
  {
    var i :| 0 <= i < |s| && s[i] == ':';
    x, y := s[..i], s[i + 1..];
  }

  ghost predicate Determines(p: Purpose, c: string, n: string) {
    forall q, d, m :: BuildChallengePayload(p, c, n) == BuildChallengePayload(q, d, m) ==> p == q && c == d && n == m
  }

  /** The exact condition: a payload determines its purpose, challenge and nonce if and only if none holds a colon. */
  lemma PayloadDeterminesIff(p: Purpose, c: string, n: string)
    ensures Determines(p, c, n) <==> ColonFreePurpose(p) && ColonFree(c) && ColonFree(n)
  {
    hide BuildChallengePayload;
    if ColonFreePurpose(p) && ColonFree(c) && ColonFree(n) {
      forall q, d, m | BuildChallengePayload(p, c, n) == BuildChallengePayload(q, d, m)
        ensures p == q && c == d && n == m
      {
        PayloadInjective(p, c, n, q, d, m);
      }
    } else if !ColonFree(n) {
      var x, y := AtColon(n);
      NonceTwin(p, c, x, y);
      assert |c + (":" + x)| > |c|;
    } else if !ColonFree(c) {
      var x, y := AtColon(c);
      ChallengeTwin(p, x, y, n);
    } else {
      var x, y := AtColon(p.authReqId);
      PurposeTwin(p, if p.CibaApprove? then CibaApprove(x) else CibaDeny(x), x, y, c, n);
    }
  }

  /** With a colon in an identifier the payload is ambiguous: one signature would serve two requests. */
  lemma PayloadAmbiguousWithColons()
    ensures BuildChallengePayload(CibaApprove("a"), "b:c", "d") == BuildChallengePayload(CibaApprove("a:b"), "c", "d")
         == "sdid-bridge:v1:ciba-approve:a:b:c:d"
  {
    var x, y, z := BuildChallengePayload(CibaApprove("a"), "b:c", "d"),
        BuildChallengePayload(CibaApprove("a:b"), "c", "d"), "sdid-bridge:v1:ciba-approve:a:b:c:d";
    assert |x| == |y| == |z|;
    assert forall i :: 0 <= i < |x| ==> x[i] == y[i] == z[i];
  }

  /** Payloads as devices rebuild them. */
  lemma PayloadsSpelledOut()
    ensures BuildChallengePayload(Activation, "chal-1", "nonce-1") == "sdid-bridge:v1:activation:chal-1:nonce-1"
    ensures BuildChallengePayload(Login, "chal-1", "nonce-1") == "sdid-bridge:v1:login:chal-1:nonce-1"
  {
    Spelled(Activation, "chal-1", "nonce-1", "sdid-bridge:v1:activation:chal-1:nonce-1");
    Spelled(Login, "chal-1", "nonce-1", "sdid-bridge:v1:login:chal-1:nonce-1");
  }

  /** The two answers to one request, and the one purpose both are stored under. */
  lemma AnswersSpelledOut()
    ensures BuildChallengePayload(CibaApprove("r"), "c", "n") == "sdid-bridge:v1:ciba-approve:r:c:n"
    ensures BuildChallengePayload(CibaDeny("r"), "c", "n") == "sdid-bridge:v1:ciba-deny:r:c:n"
    ensures StoredPurpose(CibaApprove("r")) == StoredPurpose(CibaDeny("r")) == "ciba:r"
  {
    Spelled(CibaApprove("r"), "c", "n", "sdid-bridge:v1:ciba-approve:r:c:n");
    Spelled(CibaDeny("r"), "c", "n", "sdid-bridge:v1:ciba-deny:r:c:n");
    assert "ciba:" + "r" == "ciba:r";
  }

  lemma Spelled(p: Purpose, c: string, n: string, s: string)
    requires |s| == |BuildChallengePayload(p, c, n)|
    requires forall i :: 0 <= i < |s| ==> s[i] == BuildChallengePayload(p, c, n)[i]
    ensures BuildChallengePayload(p, c, n) == s
  {
  }

  /** Distinct requests are stored under distinct purposes. */
  lemma StoredPurposeInjective(p: Purpose, q: Purpose)
    requires StoredPurpose(p) == StoredPurpose(q)
    ensures p.IsCiba() == q.IsCiba() && (p.IsCiba() ==> p.authReqId == q.authReqId) && (!p.IsCiba() ==> p == q)
  {
    var s, t := StoredPurpose(p), StoredPurpose(q);
    assert |s| >= 5 && |t| >= 5 && s[0] == t[0] && s[1] == t[1];
    if p.IsCiba() && q.IsCiba() { assert p.authReqId == s[5..] && q.authReqId == t[5..]; }
  }
}
