/** Appends of many brokers interleaved around the advisory lock, and what two accepted chains have in common. */
module AuditRuns {
  import opened Common
  import opened Json
  import opened AuditChain

  // -------------------------------------------------------------- tamper evidence

  predicate BraceFree(t: Text) { 0x7b !in t }

  lemma PrintedObjectLead(e: Event)
    ensures Print(Canonical(e)) != [] && Print(Canonical(e))[0] == 0x7b
  {
    hide JoinMembers, Sorted, Defined, Zip;
  }

  lemma LinkIsBraceFree(h: Hash, rows: seq<Row>, i: int)
    requires IsHash(h) && Accepted(h, rows) && 0 <= i <= |rows|
    ensures BraceFree(PrevHash(rows, i)) && (i > 0 ==> IsDigest(PrevHash(rows, i)) && PrevHash(rows, i) != GENESIS)
  {
    hide Print, Canonical;
    assert |GENESIS| == 7;
    if i == 0 {
      assert BraceFree(GENESIS);
    } else {
      assert RowOk(h, rows, i - 1);
    }
  }

  /** The hashed text splits at its first brace: the link before it, the canonical object from there on. */
  lemma SplitHashed(p: Text, x: Text, q: Text, y: Text)
    requires BraceFree(p) && BraceFree(q) && x != [] && y != [] && x[0] == 0x7b && y[0] == 0x7b && p + x == q + y
    ensures p == q && x == y
  {
    var u := p + x;
    assert forall i :: 0 <= i < |p| ==> u[i] == p[i];
    assert forall i :: 0 <= i < |q| ==> u[i] == q[i];
    assert u[|p|] == 0x7b && u[|q|] == 0x7b;
    assert |p| == |q|;
    assert p == u[..|p|] && q == u[..|q|] && x == u[|p|..] && y == u[|q|..];
  }

  /** The text whose digest row `i` carries. */
  function HashedText(rows: seq<Row>, i: int): Text
    requires 0 <= i < |rows|
  {
    PrevHash(rows, i) + Print(Canonical(rows[i].columns))
  }

  /**
   * A row of one chain and the row as far from the end of the other were hashed from different texts with one digest.
   */
  predicate CollideAt(h: Hash, a: seq<Row>, b: seq<Row>, i: int) {
    var j := i + |b| - |a|;
    0 <= i < |a| && 0 <= j < |b| && Collide(h, HashedText(a, i), HashedText(b, j))
  }

  ghost predicate HashesCollide(h: Hash, a: seq<Row>, b: seq<Row>) { exists i :: CollideAt(h, a, b, i) }

  ghost predicate SameChain(a: seq<Row>, b: seq<Row>) {
    |a| == |b| && forall i :: 0 <= i < |a| ==> SameContent(a[i].columns, b[i].columns)
  }

  /**
   * Two chains the verifier accepts that end in the same hash have the same length and the same content in every row,
   * unless two of the very texts they were hashed from, counted from the end, have one digest.
   */
  lemma {:induction false} ChainsAgree(h: Hash, a: seq<Row>, b: seq<Row>)
    requires IsHash(h) && Accepted(h, a) && Accepted(h, b) && PrevHash(a, |a|) == PrevHash(b, |b|)
    requires (forall i :: 0 <= i < |a| ==> ValidEvent(a[i].columns))
    requires (forall i :: 0 <= i < |b| ==> ValidEvent(b[i].columns))
    ensures HashesCollide(h, a, b) || SameChain(a, b)
    decreases |a|
  {
    hide Print, Canonical, SameContent, ValidEvent, HashesCollide;
    LinkIsBraceFree(h, a, |a|);
    LinkIsBraceFree(h, b, |b|);
    if a != [] && b != [] {
      var n, m := |a| - 1, |b| - 1;
      assert RowOk(h, a, n) && RowOk(h, b, m);
      if HashedText(a, n) == HashedText(b, m) {
        LastRowsAgree(h, a, b);
        PrefixAccepted(h, a, n);
        PrefixAccepted(h, b, m);
        ChainsAgree(h, a[..n], b[..m]);
        ChainsExtend(h, a, b);
      } else {
        LastRowsCollide(h, a, b);
      }
    }
  }

  lemma LastRowsCollide(h: Hash, a: seq<Row>, b: seq<Row>)
    requires a != [] && b != [] && Collide(h, HashedText(a, |a| - 1), HashedText(b, |b| - 1))
    ensures HashesCollide(h, a, b)
  {
    hide HashedText;
    assert CollideAt(h, a, b, |a| - 1);
  }

  lemma ChainsExtend(h: Hash, a: seq<Row>, b: seq<Row>)
    requires a != [] && b != [] && SameContent(a[|a| - 1].columns, b[|b| - 1].columns)
    requires HashesCollide(h, a[..|a| - 1], b[..|b| - 1]) || SameChain(a[..|a| - 1], b[..|b| - 1])
    ensures HashesCollide(h, a, b) || SameChain(a, b)
  {
    hide HashedText, SameContent;
    var n, m := |a| - 1, |b| - 1;
    if HashesCollide(h, a[..n], b[..m]) {
      var i :| CollideAt(h, a[..n], b[..m], i);
      PrefixText(a, n, i);
      PrefixText(b, m, i + m - n);
      assert CollideAt(h, a, b, i);
    } else {
      assert forall i :: 0 <= i < n ==> a[..n][i] == a[i] && b[..m][i] == b[i];
    }
  }

  lemma LastRowsAgree(h: Hash, a: seq<Row>, b: seq<Row>)
    requires IsHash(h) && Accepted(h, a) && Accepted(h, b) && a != [] && b != []
    requires ValidEvent(a[|a| - 1].columns) && ValidEvent(b[|b| - 1].columns)
    requires HashedText(a, |a| - 1) == HashedText(b, |b| - 1)
    ensures PrevHash(a, |a| - 1) == PrevHash(b, |b| - 1) && SameContent(a[|a| - 1].columns, b[|b| - 1].columns)
  {
    hide Print, Canonical, SameContent, ValidEvent, Accepted;
    var n, m := |a| - 1, |b| - 1;
    LinkIsBraceFree(h, a, n);
    LinkIsBraceFree(h, b, m);
    PrintedObjectLead(a[n].columns);
    PrintedObjectLead(b[m].columns);
    SplitHashed(PrevHash(a, n), Print(Canonical(a[n].columns)), PrevHash(b, m), Print(Canonical(b[m].columns)));
    CanonicalTextDetermines(a[n].columns, b[m].columns);
  }

  lemma PrefixText(rows: seq<Row>, n: int, i: int)
    requires 0 <= i < n <= |rows|
    ensures HashedText(rows[..n], i) == HashedText(rows, i)
  {
    hide Print, Canonical;
  }

  lemma PrefixAccepted(h: Hash, rows: seq<Row>, n: int)
    requires Accepted(h, rows) && 0 <= n <= |rows|
    ensures Accepted(h, rows[..n]) && PrevHash(rows[..n], n) == PrevHash(rows, n)
  {
    hide Print, Canonical, ComputeHash;
    forall i | 0 <= i < n ensures RowOk(h, rows[..n], i) { assert RowOk(h, rows, i); }
  }

  // -------------------------------------------------------------- interleaved appends

  type Broker = nat

  /** Where an `append` stands: queued for the lock, holding it, knowing the last hash, row inserted. */
  datatype Phase =
    | Waiting(event: Event) | Locked(event: Event) | Ready(event: Event, prev: Text) | Inserted(row: Row)

  datatype Table = Table(rows: seq<Row>, nextSeq: nat, lock: Option<Broker>, running: map<Broker, Phase>)

  datatype Step =
    | Begin(t: Broker, event: Event)
    | Acquire(t: Broker)
    | ReadLast(t: Broker)
    | InsertRow(t: Broker, columns: Event)
    | Commit(t: Broker)
    | Rollback(t: Broker)   // any failure: the row, if inserted, is gone, its sequence number is not reused

  predicate HoldsLock(s: Table, t: Broker) { s.lock == Some(t) && t in s.running }

  function Move(s: Table, t: Broker, p: Phase): Table { s.(running := s.running[t := p]) }

  ghost function Apply(h: Hash, s: Table, step: Step): Table {
    match step
    case Begin(t, e) => if t in s.running || !ValidEvent(e) then s else Move(s, t, Waiting(e))
    case Acquire(t) =>
      if s.lock.Some? || t !in s.running || !s.running[t].Waiting? then s
      else Move(s.(lock := Some(t)), t, Locked(s.running[t].event))
    case ReadLast(t) =>
      if !HoldsLock(s, t) || !s.running[t].Locked? then s
      else Move(s, t, Ready(s.running[t].event, PrevHash(s.rows, |s.rows|)))
    case InsertRow(t, columns) =>
      if !HoldsLock(s, t) || !s.running[t].Ready? || !ReadsBack(s.running[t].event, columns) then s
      else
        var Ready(e, prev) := s.running[t];
        Move(s.(nextSeq := s.nextSeq + 1), t, Inserted(Row(s.nextSeq, columns, prev, ComputeHash(h, prev, e), e)))
    case Commit(t) =>
      if !HoldsLock(s, t) || !s.running[t].Inserted? then s
      else s.(rows := s.rows + [s.running[t].row], lock := None, running := s.running - {t})
    case Rollback(t) =>
      if t !in s.running then s
      else s.(lock := if s.lock == Some(t) then None else s.lock, running := s.running - {t})
  }

  /** Any number of brokers, any order of steps. */
  ghost function Run(h: Hash, steps: seq<Step>): Table {
    if steps == [] then Table([], 0, None, map[]) else Apply(h, Run(h, steps[..|steps| - 1]), steps[|steps| - 1])
  }

  /** A row is what `append` wrote: linked, hashed from the event, stored so that the event reads back. */
  ghost predicate Written(h: Hash, r: Row, prev: Text) {
    r.prevHash == prev && r.hash == ComputeHash(h, prev, r.source) && ValidEvent(r.source)
        && ReadsBack(r.source, r.columns)
  }

  ghost predicate WrittenAt(h: Hash, rows: seq<Row>, i: int) {
    0 <= i < |rows| && Written(h, rows[i], PrevHash(rows, i))
  }

  ghost predicate PhaseOk(h: Hash, s: Table, t: Broker)
    requires t in s.running
  {
    match s.running[t]
    case Waiting(e) => ValidEvent(e) && s.lock != Some(t)
    case Locked(e) => ValidEvent(e) && s.lock == Some(t)
    case Ready(e, prev) => ValidEvent(e) && s.lock == Some(t) && prev == PrevHash(s.rows, |s.rows|)
    case Inserted(r) =>
      && s.lock == Some(t) && Written(h, r, PrevHash(s.rows, |s.rows|)) && r.seqNo < s.nextSeq
      && forall i :: 0 <= i < |s.rows| ==> s.rows[i].seqNo < r.seqNo
  }

  ghost predicate RowsOk(h: Hash, rows: seq<Row>, nextSeq: nat) {
    && (forall i :: 0 <= i < |rows| ==> WrittenAt(h, rows, i))
    && (forall i :: 0 <= i < |rows| ==> rows[i].seqNo < nextSeq)
    && (forall i, j :: 0 <= i < j < |rows| ==> rows[i].seqNo < rows[j].seqNo)
  }

  ghost predicate Inv(h: Hash, s: Table) {
    && RowsOk(h, s.rows, s.nextSeq)
    && (forall t | t in s.running :: PhaseOk(h, s, t))
    && (s.lock.Some? ==> s.lock.value in s.running)
  }

  lemma RowsExtend(h: Hash, rows: seq<Row>, row: Row, nextSeq: nat)
    requires RowsOk(h, rows, nextSeq) && Written(h, row, PrevHash(rows, |rows|)) && row.seqNo < nextSeq
    requires forall i :: 0 <= i < |rows| ==> rows[i].seqNo < row.seqNo
    ensures RowsOk(h, rows + [row], nextSeq)
  {
    hide Written;
    forall i | 0 <= i <= |rows| ensures WrittenAt(h, rows + [row], i) {
      if i < |rows| { assert WrittenAt(h, rows, i); }
    }
  }

  /** A step that commits nothing and moves only broker `t`. */
  lemma MoveKeeps(h: Hash, s: Table, s': Table, t: Broker)
    requires Inv(h, s) && s'.rows == s.rows && s'.nextSeq >= s.nextSeq
    requires forall u | u in s'.running && u != t ::
               u in s.running && s'.running[u] == s.running[u] && (s'.lock == Some(u) <==> s.lock == Some(u))
    requires t in s'.running ==> PhaseOk(h, s', t)
    requires s'.lock.Some? ==> s'.lock.value in s'.running
    ensures Inv(h, s')
  {
    hide Written, ValidEvent;
    forall u | u in s'.running ensures PhaseOk(h, s', u) { if u != t { assert PhaseOk(h, s, u); } }
  }

  lemma StepKeeps(h: Hash, s: Table, step: Step)
    requires Inv(h, s)
    ensures Inv(h, Apply(h, s, step))
  {
    hide Print, Canonical, ValidEvent, ReadsBack, ComputeHash, Inv;
    if step.Commit? {
      CommitKeeps(h, s, step.t);
    } else {
      LockHolder(h, s, step.t);
      if Apply(h, s, step) != s { MoveKeeps(h, s, Apply(h, s, step), step.t); }
    }
  }

  lemma LockHolder(h: Hash, s: Table, t: Broker)
    requires Inv(h, s)
    ensures s.lock.Some? ==> s.lock.value in s.running
    ensures t in s.running ==> PhaseOk(h, s, t)
    ensures forall i :: 0 <= i < |s.rows| ==> s.rows[i].seqNo < s.nextSeq
  {
  }

  lemma CommitKeeps(h: Hash, s: Table, t: Broker)
    requires Inv(h, s)
    ensures Inv(h, Apply(h, s, Commit(t)))
  {
    if HoldsLock(s, t) && s.running[t].Inserted? {
      var s' := Apply(h, s, Commit(t));
      assert PhaseOk(h, s, t);
      hide Written, ValidEvent;
      RowsExtend(h, s.rows, s.running[t].row, s.nextSeq);
      hide RowsOk, PrevHash;
      forall u | u in s'.running ensures PhaseOk(h, s', u) { assert PhaseOk(h, s, u); }
    }
  }

  lemma {:induction false} RunInv(h: Hash, steps: seq<Step>)
    ensures Inv(h, Run(h, steps))
  {
    if steps == [] {
    } else {
      hide Inv, Apply;
      RunInv(h, steps[..|steps| - 1]);
      StepKeeps(h, Run(h, steps[..|steps| - 1]), steps[|steps| - 1]);
    }
  }

  /**
   * Any interleaving of appends leaves a table in strictly ascending order that the verifier accepts, recomputing from
   * the stored columns, provided no event held an undefined array element.
   */
  lemma AppendsAreAccepted(h: Hash, steps: seq<Step>)
    requires forall i :: 0 <= i < |Run(h, steps).rows| ==> NoHolesEvent(Run(h, steps).rows[i].source)
    ensures Accepted(h, Run(h, steps).rows)
    ensures forall i, j :: 0 <= i < j < |Run(h, steps).rows| ==>
        Run(h, steps).rows[i].seqNo < Run(h, steps).rows[j].seqNo
  {
    hide Print, Canonical, ValidEvent, ReadsBack, NoHolesEvent, Run;
    RunInv(h, steps);
    var rows := Run(h, steps).rows;
    forall i | 0 <= i < |rows| ensures RowOk(h, rows, i) {
      assert WrittenAt(h, rows, i);
      RecomputedText(rows[i].source, rows[i].columns);
    }
  }

  /**
   * The exact condition: the verifier accepts a row that was really appended if and only if its event held no undefined
   * array element, or the text hashed at the append and the text recomputed from the columns, being different, have one
   * digest.
   */
  lemma HonestRowAcceptedIff(h: Hash, steps: seq<Step>, i: nat)
    requires i < |Run(h, steps).rows|
    ensures var rows := Run(h, steps).rows;
      RowOk(h, rows, i) <==>
        || NoHolesEvent(rows[i].source)
        || Collide(h, PrevHash(rows, i) + Print(Canonical(rows[i].source)), HashedText(rows, i))
  {
    hide Print, Canonical, ValidEvent, ReadsBack, NoHolesEvent, Run;
    RunInv(h, steps);
    var rows := Run(h, steps).rows;
    assert WrittenAt(h, rows, i);
    RecomputedText(rows[i].source, rows[i].columns);
    SamePrefix(PrevHash(rows, i), Print(Canonical(rows[i].source)), Print(Canonical(rows[i].columns)));
  }

  /** An append by itself adds the one row that follows from the last, and frees the lock. */
  lemma AppendAlone(h: Hash, s: Table, t: Broker, e: Event, columns: Event)
    requires s.lock.None? && t !in s.running && ValidEvent(e) && ReadsBack(e, columns)
    ensures var prev := PrevHash(s.rows, |s.rows|);
      Apply(h, Inserting(h, s, t, e, columns), Commit(t))
      == s.(rows := s.rows + [Row(s.nextSeq, columns, prev, ComputeHash(h, prev, e), e)], nextSeq := s.nextSeq + 1)
  {
    hide ReadsBack, ValidEvent, ComputeHash;
    assert s.running[t := Inserting(h, s, t, e, columns).running[t]] - {t} == s.running;
  }

  /** An append under way, its row inserted. */
  ghost function Inserting(h: Hash, s: Table, t: Broker, e: Event, columns: Event): Table {
    Apply(h, Apply(h, Apply(h, Apply(h, s, Begin(t, e)), Acquire(t)), ReadLast(t)), InsertRow(t, columns))
  }

  /** One that fails leaves every row as it was and holds no lock, however far it had come. */
  lemma RollbackFrees(h: Hash, s: Table, t: Broker)
    requires t in s.running
    ensures var s' := Apply(h, s, Rollback(t));
      s'.rows == s.rows && s'.running == s.running - {t} && s'.lock != Some(t)
      && (s.lock != Some(t) ==> s'.lock == s.lock)
  {
  }

  /**
   * A context of `{ "a": [undefined] }` is such an event: it is stored as `{ "a": [null] }` and hashed as `{"a":[]}`.
   */
  lemma UndefinedElementChangesText()
    ensures var v := Obj(Member(Ascii("a"), Arr(Item(Undefined, NoItems)), NoMembers));
      && Valid(v) && !NoHoles(v)
      && Print(v) == Ascii("{\"a\":[]}") && Print(Store(v)) == Ascii("{\"a\":[null]}")
  {
    OneField([]);
    OneField(NULL);
    assert !NoHolesItems(Item(Undefined, NoItems));
    hide Print, Body;
    FieldText(Item(Undefined, NoItems));
    FieldText(Item(Null, NoItems));
    assert Print(Null) == NULL && Print(Undefined) == [];
  }

  lemma FieldText(xs: Items)
    requires xs.Item? && xs.tail.NoItems?
    ensures var v := Obj(Member(Ascii("a"), Arr(xs), NoMembers));
      Print(v) == [0x7b] + (Quote(Ascii("a")) + [0x3a] + ([0x5b] + Print(xs.head) + [0x5d])) + [0x7d]
  {
  }

  lemma OneField(inside: Text)
    ensures [0x7b] + (Quote(Ascii("a")) + [0x3a] + ([0x5b] + inside + [0x5d])) + [0x7d]
         == Ascii("{\"a\":[") + inside + Ascii("]}")
  {
    assert Quote(Ascii("a")) == Ascii("\"a\"") by { assert Ascii("a")[1..] == []; }
  }
}
