/** Signing keys in Postgres shared by many replicas: apps/broker/src/keys/postgres-dev.custody.ts. */
module KeyRotation {
  import opened Common

  type Kid = string
  type Replica = nat

  /** `material` stands for the key pair, which no statement updates. */
  datatype Row = Row(material: nat, active: bool)
  type Table = map<Kid, Row>

  predicate IsActive(t: Table, kid: Kid) { kid in t && t[kid].active }

  ghost predicate ExactlyOneActive(t: Table) {
    && (exists kid :: IsActive(t, kid))
    && (forall k, l :: IsActive(t, k) && IsActive(t, l) ==> k == l)
  }

  // ------------------------------------------------------- one replica's cache

  datatype Loaded = Loaded(kid: Kid, material: nat, active: bool)

  /** Row `i` is active, and none before it is. */
  predicate FirstActive(rows: seq<Loaded>, i: int) {
    0 <= i < |rows| && rows[i].active && forall j :: 0 <= j < i ==> !rows[j].active
  }

  predicate Distinct(rows: seq<Loaded>) { forall i, j :: 0 <= i < j < |rows| ==> rows[i].kid != rows[j].kid }

  class Custody {
    var keys: map<Kid, nat>
    var active: Option<Kid>

    constructor ()
      ensures keys == map[] && active == None
    {
      keys, active := map[], None;
    }

    /** `reload`: rebuild the cache from the rows, keeping material already imported, and take the first active row. */
    method Reload(rows: seq<Loaded>)
      requires Distinct(rows)
      requires forall i :: 0 <= i < |rows| && rows[i].kid in keys ==> keys[rows[i].kid] == rows[i].material
      modifies this
      ensures forall kid :: kid in keys <==> exists i :: 0 <= i < |rows| && rows[i].kid == kid
      ensures forall i :: 0 <= i < |rows| ==> keys[rows[i].kid] == rows[i].material
      ensures active.None? <==> forall i :: 0 <= i < |rows| ==> !rows[i].active
      ensures active.Some? ==> exists i :: FirstActive(rows, i) && rows[i].kid == active.value
    {
      var loaded: map<Kid, nat> := map[];
      var found: Option<Kid> := None;
      for n := 0 to |rows|
        invariant forall kid :: kid in loaded <==> exists i :: 0 <= i < n && rows[i].kid == kid
        invariant forall i :: 0 <= i < n ==> rows[i].kid in loaded && loaded[rows[i].kid] == rows[i].material
        invariant found.None? <==> forall i :: 0 <= i < n ==> !rows[i].active
        invariant found.Some? ==> exists i :: FirstActive(rows, i) && rows[i].kid == found.value
      {
        var row := rows[n];
        var material := if row.kid in keys then keys[row.kid] else row.material;
        loaded := loaded[row.kid := material];
        if row.active && found.None? {
          assert FirstActive(rows, n);
          found := Some(row.kid);
        }
      }
      keys, active := loaded, found;
    }
  }

  // ------------------------------------------------------------ runs of replicas

  /** The rows a rotation has written but not committed: those it retired and the one it inserted. */
  datatype Rotation = Locked | Retired(kids: set<Kid>) | Inserted(retired: set<Kid>, kid: Kid, material: nat)

  datatype State = State(
    table: Table, lock: Option<(Replica, Rotation)>,
    caches: map<Replica, map<Kid, nat>>, booting: set<Replica>,
    signed: set<(Kid, nat)>)   // history: what any replica ever signed with

  datatype Step =
    | Reload(r: Replica)
    | BootReload(r: Replica)                              // `init`: notes whether there is an active key
    | BootInsert(r: Replica, kid: Kid, material: nat)
    | LockRotation(r: Replica)
    | RetireActive(r: Replica)
    | InsertKey(r: Replica, kid: Kid, material: nat)
    | Commit(r: Replica)
    | Rollback(r: Replica)
    | Sign(r: Replica, kid: Kid)

  function Cache(t: Table): map<Kid, nat> { map kid | kid in t :: t[kid].material }

  function Retire(t: Table, kids: set<Kid>): Table {
    map kid | kid in t :: if kid in kids then t[kid].(active := false) else t[kid]
  }

  function ActiveKids(t: Table): set<Kid> { set kid | kid in t && t[kid].active }

  function CacheOf(s: State, r: Replica): map<Kid, nat> { if r in s.caches then s.caches[r] else map[] }

  predicate Holds(s: State, r: Replica) { s.lock.Some? && s.lock.value.0 == r }

  function Apply(s: State, step: Step): State {
    match step
    case Reload(r) => s.(caches := s.caches[r := Cache(s.table)])
    case BootReload(r) =>
      s.(caches := s.caches[r := Cache(s.table)],
         booting := if ActiveKids(s.table) == {} then s.booting + {r} else s.booting)
    case BootInsert(r, kid, material) =>   // ON CONFLICT DO NOTHING
      if r !in s.booting then s
      else if kid in s.table then s.(booting := s.booting - {r})
      else s.(table := s.table[kid := Row(material, true)], booting := s.booting - {r})
    case LockRotation(r) => if s.lock.Some? then s else s.(lock := Some((r, Locked)))
    case RetireActive(r) =>
      if !Holds(s, r) || !s.lock.value.1.Locked? then s else s.(lock := Some((r, Retired(ActiveKids(s.table)))))
    case InsertKey(r, kid, material) =>   // a fresh kid; a clash aborts the transaction
      if !Holds(s, r) || !s.lock.value.1.Retired? then s
      else if kid in s.table then s.(lock := None)
      else s.(lock := Some((r, Inserted(s.lock.value.1.kids, kid, material))))
    case Commit(r) =>
      if !Holds(s, r) || !s.lock.value.1.Inserted? then s
      else
        var Inserted(retired, kid, material) := s.lock.value.1;
        if kid in s.table then s.(lock := None)
        else s.(table := Retire(s.table, retired)[kid := Row(material, true)], lock := None)
    case Rollback(r) => if Holds(s, r) then s.(lock := None) else s
    case Sign(r, kid) =>   // a miss reloads once
      var s1 := if kid in CacheOf(s, r) then s else s.(caches := s.caches[r := Cache(s.table)]);
      if kid !in CacheOf(s1, r) then s1 else s1.(signed := s1.signed + {(kid, CacheOf(s1, r)[kid])})
  }

  function Run(s: State, steps: seq<Step>): State {
    if steps == [] then s else Apply(Run(s, steps[..|steps| - 1]), steps[|steps| - 1])
  }

  /** Rows are never removed and keys never change. */
  predicate Keeps(t: Table, t': Table) { forall kid | kid in t :: kid in t' && t'[kid].material == t[kid].material }

  lemma StepKeepsRows(s: State, step: Step)
    ensures Keeps(s.table, Apply(s, step).table)
  {
  }

  lemma {:induction false} RowsStay(s: State, steps: seq<Step>, k: nat)
    requires k <= |steps|
    ensures Keeps(Run(s, steps[..k]).table, Run(s, steps).table)
    decreases |steps| - k
  {
    hide Apply;
    if k == |steps| {
      assert steps[..k] == steps;
    } else {
      assert steps[..k + 1][..k] == steps[..k];
      StepKeepsRows(Run(s, steps[..k]), steps[k]);
      RowsStay(s, steps, k + 1);
    }
  }

  // ------------------------------------------------------------- one active key

  /** The open rotation, if any, retired the active key, or cannot commit any more. */
  predicate RotationOk(s: State) {
    s.lock.Some? ==>
      match s.lock.value.1
      case Locked => true
      case Retired(kids) => ActiveKids(s.table) <= kids
      case Inserted(kids, kid, _) => ActiveKids(s.table) <= kids || kid in s.table
  }

  /** One active key, no replica that found the table without one and is about to insert its own, a sound rotation. */
  ghost predicate OneKey(s: State) { ExactlyOneActive(s.table) && s.booting == {} && RotationOk(s) }

  lemma CommitLeavesOne(t: Table, kids: set<Kid>, kid: Kid, material: nat)
    requires kid !in t && ActiveKids(t) <= kids
    ensures ExactlyOneActive(Retire(t, kids)[kid := Row(material, true)])
  {
    var t' := Retire(t, kids)[kid := Row(material, true)];
    assert IsActive(t', kid);
    assert forall k | IsActive(t, k) :: k in ActiveKids(t);
    forall k | IsActive(t', k) ensures k == kid {}
  }

  lemma StepKeepsOne(s: State, step: Step)
    requires OneKey(s)
    ensures OneKey(Apply(s, step))
  {
    hide Retire, Cache;
    match step
    case Commit(r) =>
      if Holds(s, r) && s.lock.value.1.Inserted? && s.lock.value.1.kid !in s.table {
        CommitLeavesOne(s.table, s.lock.value.1.retired, s.lock.value.1.kid, s.lock.value.1.material);
      }
    case BootReload(r) =>
      var k :| IsActive(s.table, k);
      assert k in ActiveKids(s.table);
    case _ =>
  }

  /**
   * From a table with exactly one active key and no first boot under way, every run of transactional rotations,
   * reloads, boots and signings by any number of replicas keeps exactly one active row.
   */
  lemma {:induction false} AlwaysOneActive(s: State, steps: seq<Step>)
    requires OneKey(s)
    ensures OneKey(Run(s, steps))
  {
    if steps != [] {
      hide OneKey, Apply;
      AlwaysOneActive(s, steps[..|steps| - 1]);
      StepKeepsOne(Run(s, steps[..|steps| - 1]), steps[|steps| - 1]);
    }
  }

  /** `rows` is what the table holds, in some order. */
  ghost predicate Lists(t: Table, rows: seq<Loaded>) {
    && (forall i | 0 <= i < |rows| ::
          rows[i].kid in t && t[rows[i].kid] == Row(rows[i].material, rows[i].active))
    && (forall kid | kid in t :: exists i :: 0 <= i < |rows| && rows[i].kid == kid)
  }

  /** What `Custody.Reload` makes of the rows is the cache of the runs below. */
  lemma ReloadFillsCache(t: Table, rows: seq<Loaded>, keys: map<Kid, nat>)
    requires Lists(t, rows)
    requires forall kid :: kid in keys <==> exists i :: 0 <= i < |rows| && rows[i].kid == kid
    requires forall i :: 0 <= i < |rows| ==> keys[rows[i].kid] == rows[i].material
    ensures keys == Cache(t)
  {
    forall kid ensures kid in keys <==> kid in t {}
    forall kid | kid in t ensures keys[kid] == t[kid].material {
      var i :| 0 <= i < |rows| && rows[i].kid == kid;
    }
  }

  /** While there is one active key, the first active row is its row in any order: replicas agree what to sign with. */
  lemma ReloadedReplicaSigns(s: State, steps: seq<Step>, rows: seq<Loaded>)
    requires OneKey(s) && Lists(Run(s, steps).table, rows)
    ensures exists i :: FirstActive(rows, i)
    ensures forall i, kid | FirstActive(rows, i) :: IsActive(Run(s, steps).table, kid) <==> kid == rows[i].kid
  {
    hide Run;
    AlwaysOneActive(s, steps);
    var t := Run(s, steps).table;
    var kid :| IsActive(t, kid);
    var n :| 0 <= n < |rows| && rows[n].kid == kid;
    assert rows[n].active;
    var i := LeastActive(rows, n);
    assert FirstActive(rows, i);
    forall i, k | FirstActive(rows, i) ensures IsActive(t, k) <==> k == rows[i].kid { assert IsActive(t, rows[i].kid); }
  }

  lemma LeastActive(rows: seq<Loaded>, n: nat) returns (i: nat)
    requires n < |rows| && rows[n].active
    ensures FirstActive(rows, i)
  {
    i := 0;
    while !rows[i].active
      invariant i <= n && forall j :: 0 <= j < i ==> !rows[j].active
      decreases n - i
    {
      i := i + 1;
    }
  }

  lemma Longer(kids: set<Kid>) returns (n: nat)
    ensures forall k | k in kids :: |k| < n
  {
    if kids == {} {
      n := 0;
    } else {
      var k :| k in kids;
      var m := Longer(kids - {k});
      n := if |k| < m then m else |k| + 1;
      assert kids == kids - {k} + {k};
    }
  }

  lemma NewKid(t: Table) returns (kid: Kid)
    ensures kid !in t
  {
    var n := Longer(t.Keys);
    kid := seq(n, _ => 'k');
    assert |kid| == n;
  }

  lemma TwoActive(t: Table, k: Kid, l: Kid)
    requires IsActive(t, k) && IsActive(t, l) && k != l
    ensures !ExactlyOneActive(t)
  {
  }

  /** A commit that did not retire the active key leaves two. */
  lemma CommitLeavesTwo(s: State, r: Replica, k: Kid)
    requires Holds(s, r) && s.lock.value.1.Inserted? && s.lock.value.1.kid !in s.table
    requires IsActive(s.table, k) && k !in s.lock.value.1.retired
    ensures !ExactlyOneActive(Apply(s, Commit(r)).table)
  {
    TwoActive(Apply(s, Commit(r)).table, k, s.lock.value.1.kid);
  }

  lemma RunOf(s: State, front: seq<Step>, last: Step)
    ensures Run(s, front + [last]) == Apply(Run(s, front), last)
  {
    hide Apply;
    assert (front + [last])[..|front|] == front;
  }

  /** From any other state some run leaves two active keys, or none is there to begin with. */
  lemma SomeRunBreaks(s: State)
    requires !OneKey(s)
    ensures exists steps :: !ExactlyOneActive(Run(s, steps).table)
  {
    if !ExactlyOneActive(s.table) {
      assert Run(s, []) == s;
    } else {
      var k :| IsActive(s.table, k);
      var kid := NewKid(s.table);
      if s.booting != {} {
        var r :| r in s.booting;
        RunOf(s, [], BootInsert(r, kid, 0));
        TwoActive(Run(s, [] + [BootInsert(r, kid, 0)]).table, k, kid);
      } else {
        RotationBreaks(s, k, kid);
      }
    }
  }

  lemma RotationBreaks(s: State, k: Kid, kid: Kid)
    requires ExactlyOneActive(s.table) && IsActive(s.table, k) && kid !in s.table && !RotationOk(s)
    ensures exists steps :: !ExactlyOneActive(Run(s, steps).table)
  {
    var r, rotation := s.lock.value.0, s.lock.value.1;
    var l :| l in ActiveKids(s.table) && (rotation.Retired? ==> l !in rotation.kids)
        && (rotation.Inserted? ==> l !in rotation.retired);
    assert IsActive(s.table, l) && l == k;
    RunOf(s, [], InsertKey(r, kid, 0));
    RunOf(s, [], Commit(r));
    RunOf(s, [] + [InsertKey(r, kid, 0)], Commit(r));
    hide Run;
    if rotation.Retired? {
      CommitLeavesTwo(Apply(s, InsertKey(r, kid, 0)), r, k);
    } else {
      CommitLeavesTwo(s, r, k);
    }
  }

  /**
   * The exact condition, for a system of any number of replicas in any state: every run keeps exactly one active key if
   * and only if there is one now, no replica is in the middle of a first boot, and the open rotation did not start from
   * a table that has since gained an active key.
   */
  lemma OneActiveForeverIff(s: State)
    ensures (forall steps :: ExactlyOneActive(Run(s, steps).table)) <==> OneKey(s)
  {
    hide Run, ExactlyOneActive;
    if OneKey(s) {
      forall steps ensures ExactlyOneActive(Run(s, steps).table) { AlwaysOneActive(s, steps); }
    } else {
      SomeRunBreaks(s);
    }
  }

  // -------------------------------------------------- what was signed is published

  /** Caches and signatures come from the table. */
  predicate FromTable(s: State) {
    && (forall r, kid | r in s.caches && kid in s.caches[r] ::
        kid in s.table && s.caches[r][kid] == s.table[kid].material)
    && (forall x | x in s.signed :: x.0 in s.table && s.table[x.0].material == x.1)
  }

  lemma StepFromTable(s: State, step: Step)
    requires FromTable(s)
    ensures FromTable(Apply(s, step))
  {
    StepKeepsRows(s, step);
    if step.Sign? { SignFromTable(s, step.r, step.kid); }
  }

  lemma SignFromTable(s: State, r: Replica, kid: Kid)
    requires FromTable(s)
    ensures FromTable(Apply(s, Sign(r, kid)))
  {
    var s1 := if kid in CacheOf(s, r) then s else s.(caches := s.caches[r := Cache(s.table)]);
    assert FromTable(s1);
    assert kid in CacheOf(s1, r) ==> kid in s1.table && CacheOf(s1, r)[kid] == s1.table[kid].material;
  }

  lemma {:induction false} AlwaysFromTable(s: State, steps: seq<Step>)
    requires FromTable(s)
    ensures FromTable(Run(s, steps))
  {
    if steps != [] {
      hide FromTable, Apply;
      AlwaysFromTable(s, steps[..|steps| - 1]);
      StepFromTable(Run(s, steps[..|steps| - 1]), steps[|steps| - 1]);
    }
  }

  /** The replica fills its cache from the rows in this step: a reload, at boot too, or on a signing miss. */
  predicate Loads(s: State, step: Step) {
    step.Reload? || step.BootReload? || (step.Sign? && step.kid !in CacheOf(s, step.r))
  }

  /**
   * Any key any replica had signed with by step `j` is published, with the same material, by every replica that fills
   * its cache at step `k >= j`: the tokens keep verifying.
   */
  lemma SignedKeysStayPublished(s: State, steps: seq<Step>, j: nat, k: nat, kid: Kid, material: nat)
    requires FromTable(s) && j <= k < |steps| && Loads(Run(s, steps[..k]), steps[k])
    requires (kid, material) in Run(s, steps[..j]).signed
    ensures var cache := CacheOf(Run(s, steps[..k + 1]), steps[k].r); kid in cache && cache[kid] == material
  {
    assert steps[..k][..j] == steps[..j];
    SignedGrows(s, steps[..k], j);
    AlwaysFromTable(s, steps[..k]);
    RunOne(s, steps, k);
    hide Run;
    assert (kid, material).0 in Run(s, steps[..k]).table;
    LoadPublishes(Run(s, steps[..k]), steps[k], kid);
  }

  lemma RunOne(s: State, steps: seq<Step>, k: nat)
    requires k < |steps|
    ensures Run(s, steps[..k + 1]) == Apply(Run(s, steps[..k]), steps[k])
  {
    hide Apply;
    assert steps[..k + 1][..k] == steps[..k];
  }

  lemma LoadPublishes(s: State, step: Step, kid: Kid)
    requires Loads(s, step) && kid in s.table
    ensures var cache := CacheOf(Apply(s, step), step.r); kid in cache && cache[kid] == s.table[kid].material
  {
  }

  lemma StepSigns(s: State, step: Step)
    ensures s.signed <= Apply(s, step).signed
  {
  }

  /** Signatures are never forgotten along a run. */
  lemma {:induction false} SignedGrows(s: State, steps: seq<Step>, k: nat)
    requires k <= |steps|
    ensures Run(s, steps[..k]).signed <= Run(s, steps).signed
    decreases |steps| - k
  {
    hide Apply;
    if k == |steps| {
      assert steps[..k] == steps;
    } else {
      RunOne(s, steps, k);
      StepSigns(Run(s, steps[..k]), steps[k]);
      hide Run;
      SignedGrows(s, steps, k + 1);
    }
  }

  // -------------------------------------------------------------- first boot

  const EMPTY: State := State(map[], None, map[], {}, {})

  /** Two replicas that both find the table empty both insert an active key. */
  lemma FirstBootRace()
    ensures var s := Apply(Apply(Apply(Apply(EMPTY, BootReload(0)), BootReload(1)), BootInsert(0, "a", 1)),
        BootInsert(1, "b", 2));
      IsActive(s.table, "a") && IsActive(s.table, "b") && !ExactlyOneActive(s.table)
  {
    var s1 := Apply(EMPTY, BootReload(0));
    var s2 := Apply(s1, BootReload(1));
    assert ActiveKids(EMPTY.table) == {} && s2.booting == {0, 1} && s2.table == map[];
    var s3 := Apply(s2, BootInsert(0, "a", 1));
    assert "a"[0] != "b"[0];
    assert "b" !in s3.table && "a" in s3.table;
    var s4 := Apply(s3, BootInsert(1, "b", 2));
    assert IsActive(s4.table, "a") && IsActive(s4.table, "b");
  }

  /** One rotation repairs any table, if nothing else is inserted while it is open. */
  lemma RotationRestoresOne(s: State, r: Replica, kid: Kid, material: nat)
    requires s.lock.None? && kid !in s.table
    ensures var s' := Apply(Apply(Apply(Apply(s, LockRotation(r)), RetireActive(r)), InsertKey(r, kid, material)),
        Commit(r));
      ExactlyOneActive(s'.table) && IsActive(s'.table, kid) && Keeps(s.table, s'.table)
  {
    CommitLeavesOne(s.table, ActiveKids(s.table), kid, material);
  }

  /** A rotation that fails after any of its steps leaves everything as it was, and the lock free. */
  lemma RollbackUndoes(s: State, r: Replica, kid: Kid, material: nat)
    requires s.lock.None?
    ensures var s1 := Apply(s, LockRotation(r));
      var s2 := Apply(s1, RetireActive(r));
      var s3 := Apply(s2, InsertKey(r, kid, material));
      Apply(s1, Rollback(r)) == s && Apply(s2, Rollback(r)) == s && Apply(s3, Rollback(r)) == s
  {
  }

  /** A replica signs with any key of the table, cached or not, and with no other. */
  lemma SignsKnownKeys(s: State, r: Replica, kid: Kid)
    requires FromTable(s)
    ensures kid in s.table ==> Apply(s, Sign(r, kid)).signed == s.signed + {(kid, s.table[kid].material)}
    ensures kid !in s.table ==> Apply(s, Sign(r, kid)).signed == s.signed
    ensures Apply(s, Sign(r, kid)).table == s.table
  {
    SignFromTable(s, r, kid);
  }
}
