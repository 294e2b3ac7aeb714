/** The audit hash chain of apps/broker/src/audit/audit.service.ts: append under a lock, and the verifier. */
module AuditChain {
  import opened Common
  import opened Json

  const GENESIS: Text := Ascii("genesis")

  /** An audit event as `computeHash` sees it. `None` is an absent optional field. */
  datatype Event = Event(id: Text, ts: Text, actor: Members, action: Text, subjectRef: Option<Text>, rpId: Option<Text>,
                         deviceBindingId: Option<Text>, assurance: Option<Text>, matchResult: Option<Members>,
                         sdidTxnRef: Option<Text>, result: Text, context: Option<Members>)

  predicate ValidObject(o: Option<Members>) { o.Some? ==> ValidMembers(o.value) }

  predicate ValidEvent(e: Event) { ValidMembers(e.actor) && ValidObject(e.matchResult) && ValidObject(e.context) }

  function OrNull(t: Option<Text>): Value { if t.Some? then Str(t.value) else Null }

  function ObjectOrNull(o: Option<Members>): Value { if o.Some? then Obj(o.value) else Null }

  const KEYS: seq<Text> := [
    Ascii("id"), Ascii("ts"), Ascii("actor"), Ascii("action"), Ascii("subjectRef"), Ascii("rpId"),
    Ascii("deviceBindingId"), Ascii("assurance"), Ascii("matchResult"), Ascii("sdidTxnRef"), Ascii("result"),
    Ascii("context")]

  function Columns(e: Event): (vs: seq<Value>)
    ensures |vs| == |KEYS|
  {
    [Str(e.id), Str(e.ts), Obj(e.actor), Str(e.action), OrNull(e.subjectRef), OrNull(e.rpId),
     OrNull(e.deviceBindingId), OrNull(e.assurance), ObjectOrNull(e.matchResult), OrNull(e.sdidTxnRef), Str(e.result),
     ObjectOrNull(e.context)]
  }

  function Zip(keys: seq<Text>, values: seq<Value>): Members
    requires |keys| == |values|
  {
    if keys == [] then NoMembers else Member(keys[0], values[0], Zip(keys[1..], values[1..]))
  }

  /** The object `computeHash` prints. */
  function Canonical(e: Event): Value { Obj(Zip(KEYS, Columns(e))) }

  /** SHA-256 in hexadecimal, of which only the shape of the digest is known. */
  type Hash = Text -> Text

  predicate IsDigest(t: Text) { |t| == 64 && forall i :: 0 <= i < 64 ==> IsDigit(t[i]) || 0x61 <= t[i] <= 0x66 }

  ghost predicate IsHash(h: Hash) { forall x :: IsDigest(h(x)) }

  function ComputeHash(h: Hash, prev: Text, e: Event): Text { h(prev + Print(Canonical(e))) }

  /** Two different texts with one digest. */
  predicate Collide(h: Hash, x: Text, y: Text) { x != y && h(x) == h(y) }

  // -------------------------------------------------------- what a jsonb column keeps

  /** `JSON.stringify` on the way into the column: undefined members vanish, undefined elements become null. */
  function Store(v: Value): Value
    decreases v
  {
    match v
    case Undefined => Null
    case NotFinite => Null
    case NegativeZero => Num([0x30])
    case Arr(xs) => Arr(StoreItems(xs))
    case Obj(ms) => Obj(StoreMembers(ms))
    case _ => v
  }

  function StoreItems(xs: Items): Items
    decreases xs
  {
    if xs.NoItems? then NoItems else Item(Store(xs.head), StoreItems(xs.tail))
  }

  function StoreMembers(ms: Members): Members
    decreases ms
  {
    if ms.NoMembers? then NoMembers
    else if ms.value.Undefined? then StoreMembers(ms.rest)
    else Member(ms.key, Store(ms.value), StoreMembers(ms.rest))
  }

  /** No array holds an undefined element, anywhere a member is defined. */
  predicate NoHoles(v: Value) {
    match v
    case Arr(xs) => NoHolesItems(xs)
    case Obj(ms) => NoHolesMembers(ms)
    case _ => true
  }

  predicate NoHolesItems(xs: Items) { xs.Item? ==> !xs.head.Undefined? && NoHoles(xs.head) && NoHolesItems(xs.tail) }

  predicate NoHolesMembers(ms: Members) { ms.Member? ==> NoHoles(ms.value) && NoHolesMembers(ms.rest) }

  lemma {:induction false} StoredHasKey(ms: Members, k: Text)
    requires HasKey(StoreMembers(ms), k)
    ensures HasKey(ms, k)
  {
    if !(!ms.value.Undefined? && ms.key == k) { StoredHasKey(ms.rest, k); }
  }

  lemma {:induction false} StoreValid(v: Value)
    requires Valid(v)
    ensures Valid(Store(v)) && !Store(v).Undefined?
    decreases v
  {
    match v
    case Arr(xs) => StoreItemsValid(xs);
    case Obj(ms) => StoreMembersValid(ms);
    case _ =>
  }

  lemma {:induction false} StoreItemsValid(xs: Items)
    requires ValidItems(xs)
    ensures ValidItems(StoreItems(xs))
    decreases xs
  {
    if xs.Item? { StoreValid(xs.head); StoreItemsValid(xs.tail); }
  }

  lemma {:induction false} StoreMembersValid(ms: Members)
    requires ValidMembers(ms)
    ensures ValidMembers(StoreMembers(ms))
    decreases ms
  {
    if ms.Member? {
      StoreValid(ms.value);
      StoreMembersValid(ms.rest);
      if HasKey(StoreMembers(ms.rest), ms.key) { StoredHasKey(ms.rest, ms.key); }
    }
  }

  /** The column means what the event meant exactly when no array of the event holds an undefined element. */
  lemma {:induction false} StoreMeaning(v: Value)
    requires Valid(v) && !v.Undefined?
    ensures Meaning(Store(v)) == Meaning(v) <==> NoHoles(v)
    decreases v
  {
    match v
    case Arr(xs) => StoreArrayMeaning(xs);
    case Obj(ms) => StoreMembersMeaning(ms);
    case _ =>
  }

  lemma {:induction false} StoreItemsMeaning(xs: Items)
    requires ValidItems(xs)
    ensures |Elements(StoreItems(xs))| == |Elements(xs)|
    ensures Elements(StoreItems(xs)) == Elements(xs) <==> NoHolesItems(xs)
    ensures UndefinedTree !in Elements(StoreItems(xs))
    decreases xs, 0
  {
    if xs.Item? {
      var s, t := Elements(StoreItems(xs)), Elements(xs);
      assert s[0] == Meaning(Store(xs.head)) && t[0] == Meaning(xs.head);
      assert s[1..] == Elements(StoreItems(xs.tail)) && t[1..] == Elements(xs.tail);
      StoreDefined(xs.head);
      hide Meaning;
      StoreItemsMeaning(xs.tail);
      if !xs.head.Undefined? { StoreMeaning(xs.head); }
      assert s == t <==> s[0] == t[0] && s[1..] == t[1..];
    }
  }

  lemma StoreDefined(v: Value)
    ensures Meaning(Store(v)) != UndefinedTree && (v.Undefined? <==> Meaning(v) == UndefinedTree)
  {
    hide Elements, Fields;
  }

  /** Storing fills the gaps: an undefined element comes back as null, at its own place. */
  lemma {:induction false} StoredElement(xs: Items, i: nat)
    requires i < |Elements(xs)|
    ensures |Elements(StoreItems(xs))| == |Elements(xs)|
    ensures Elements(xs)[i] == UndefinedTree ==> Elements(StoreItems(xs))[i] == NullTree
    decreases xs
  {
    hide Store;
    StoreUndefined(xs.head);
    if i > 0 { StoredElement(xs.tail, i - 1); } else { StoredLength(xs); }
  }

  lemma {:induction false} StoredLength(xs: Items)
    ensures |Elements(StoreItems(xs))| == |Elements(xs)|
    decreases xs
  {
    hide Store;
    if xs.Item? { StoredLength(xs.tail); }
  }

  lemma StoreUndefined(v: Value)
    ensures Meaning(v) == UndefinedTree ==> Meaning(Store(v)) == NullTree
  {
    hide Elements, Fields;
  }

  lemma {:induction false} StoreArrayMeaning(xs: Items)
    requires ValidItems(xs)
    ensures Meaning(Arr(StoreItems(xs))) == Meaning(Arr(xs)) <==> NoHolesItems(xs)
    decreases xs, 1
  {
    hide Elements, NoHolesItems;
    StoreItemsMeaning(xs);
    assert [UndefinedTree][0] == UndefinedTree;
  }

  lemma {:induction false} StoreMembersMeaning(ms: Members)
    requires ValidMembers(ms)
    ensures Fields(StoreMembers(ms)) == Fields(ms) <==> NoHolesMembers(ms)
    ensures Fields(StoreMembers(ms)).Keys == Fields(ms).Keys
    decreases ms
  {
    if ms.Member? {
      StoreMembersMeaning(ms.rest);
      if !ms.value.Undefined? {
        StoreMeaning(ms.value);
        StoreDefined(ms.value);
        FieldKey(ms.rest, ms.key);
        hide Meaning, Store;
        var s, t := Fields(StoreMembers(ms)), Fields(ms);
        assert s - {ms.key} == Fields(StoreMembers(ms.rest)) && t - {ms.key} == Fields(ms.rest);
        assert s[ms.key] == Meaning(Store(ms.value)) && t[ms.key] == Meaning(ms.value);
      }
    }
  }

  lemma {:induction false} FieldKey(ms: Members, k: Text)
    ensures k in Fields(ms) ==> HasKey(ms, k)
  {
    hide Meaning;
    if ms.Member? { FieldKey(ms.rest, k); }
  }

  // ------------------------------------------------------ what the canonical text says

  predicate Distinct(keys: seq<Text>) { forall i, j :: 0 <= i < j < |keys| ==> keys[i] != keys[j] }

  lemma {:induction false} ZipKeys(keys: seq<Text>, values: seq<Value>, k: Text)
    requires |keys| == |values|
    ensures HasKey(Zip(keys, values), k) <==> k in keys
  {
    if keys != [] {
      ZipKeys(keys[1..], values[1..], k);
      assert keys == [keys[0]] + keys[1..];
    }
  }

  lemma {:induction false} ZipValid(keys: seq<Text>, values: seq<Value>)
    requires |keys| == |values| && Distinct(keys) && forall i :: 0 <= i < |values| ==> Valid(values[i])
    ensures ValidMembers(Zip(keys, values))
  {
    if keys != [] {
      ZipValid(keys[1..], values[1..]);
      ZipKeys(keys[1..], values[1..], keys[0]);
    }
  }

  /** Under fixed distinct keys, equal fields are pairwise equal values. */
  lemma {:induction false} ZipFields(keys: seq<Text>, v: seq<Value>, w: seq<Value>)
    requires |keys| == |v| == |w| && Distinct(keys)
    requires forall i :: 0 <= i < |v| ==> !v[i].Undefined? && !w[i].Undefined?
    ensures Fields(Zip(keys, v)) == Fields(Zip(keys, w)) <==>
        forall i :: 0 <= i < |v| ==> Meaning(v[i]) == Meaning(w[i])
  {
    hide Meaning;
    if keys != [] {
      ZipFields(keys[1..], v[1..], w[1..]);
      ZipKeys(keys[1..], v[1..], keys[0]);
      ZipKeys(keys[1..], w[1..], keys[0]);
      FieldKey(Zip(keys[1..], v[1..]), keys[0]);
      FieldKey(Zip(keys[1..], w[1..]), keys[0]);
      var f, g := Fields(Zip(keys, v)), Fields(Zip(keys, w));
      assert f - {keys[0]} == Fields(Zip(keys[1..], v[1..])) && g - {keys[0]} == Fields(Zip(keys[1..], w[1..]));
      assert f[keys[0]] == Meaning(v[0]) && g[keys[0]] == Meaning(w[0]);
      assert forall i :: 0 <= i < |v| - 1 ==> v[1..][i] == v[i + 1] && w[1..][i] == w[i + 1];
      HeadAndTail(v, w);
    }
  }

  lemma HeadAndTail(v: seq<Value>, w: seq<Value>)
    requires |v| == |w| > 0
    ensures (forall i :: 0 <= i < |v| ==> Meaning(v[i]) == Meaning(w[i])) <==>
            Meaning(v[0]) == Meaning(w[0]) && forall i :: 0 <= i < |v| - 1 ==> Meaning(v[1..][i]) == Meaning(w[1..][i])
  {
    hide Meaning;
    if Meaning(v[0]) == Meaning(w[0]) && forall i :: 0 <= i < |v| - 1 ==> Meaning(v[1..][i]) == Meaning(w[1..][i]) {
      forall i | 0 <= i < |v| ensures Meaning(v[i]) == Meaning(w[i]) {
        if i > 0 { assert v[1..][i - 1] == v[i] && w[1..][i - 1] == w[i]; }
      }
    }
  }

  /** Length and first two letters tell the keys apart. */
  function Fingerprint(k: Text): int {
    if |k| < 2 then 0 else var first: int, second: int := k[0], k[1]; |k| * 0x1_0000_0000 + first * 0x1_0000 + second
  }

  lemma KeysDistinct()
    ensures Distinct(KEYS)
  {
    forall i, j | 0 <= i < j < |KEYS| ensures Fingerprint(KEYS[i]) != Fingerprint(KEYS[j]) {}
  }

  predicate SameObject(a: Option<Members>, b: Option<Members>) {
    a.None? == b.None? && (a.Some? ==> Fields(a.value) == Fields(b.value))
  }

  /** The same content in every column, objects compared as maps. */
  predicate SameContent(a: Event, b: Event) {
    && a.id == b.id && a.ts == b.ts && a.action == b.action && a.result == b.result
    && a.subjectRef == b.subjectRef && a.rpId == b.rpId && a.deviceBindingId == b.deviceBindingId
    && a.assurance == b.assurance && a.sdidTxnRef == b.sdidTxnRef
    && Fields(a.actor) == Fields(b.actor) && SameObject(a.matchResult, b.matchResult)
    && SameObject(a.context, b.context)
  }

  lemma TextMeans(x: Text, y: Text, p: Option<Text>, q: Option<Text>)
    ensures Meaning(Str(x)) == Meaning(Str(y)) <==> x == y
    ensures Meaning(OrNull(p)) == Meaning(OrNull(q)) <==> p == q
  {
  }

  lemma ObjectMeans(x: Members, y: Members, p: Option<Members>, q: Option<Members>)
    ensures Meaning(Obj(x)) == Meaning(Obj(y)) <==> Fields(x) == Fields(y)
    ensures Meaning(ObjectOrNull(p)) == Meaning(ObjectOrNull(q)) <==> SameObject(p, q)
  {
    hide Fields;
  }

  lemma ColumnsMean(a: Event, b: Event)
    ensures (forall i :: 0 <= i < |KEYS| ==> Meaning(Columns(a)[i]) == Meaning(Columns(b)[i])) <==> SameContent(a, b)
  {
    hide Fields, Meaning, OrNull, ObjectOrNull, SameObject;
    TextMeans(a.id, b.id, a.subjectRef, b.subjectRef);
    TextMeans(a.ts, b.ts, a.rpId, b.rpId);
    TextMeans(a.action, b.action, a.deviceBindingId, b.deviceBindingId);
    TextMeans(a.result, b.result, a.assurance, b.assurance);
    TextMeans(a.id, b.id, a.sdidTxnRef, b.sdidTxnRef);
    ObjectMeans(a.actor, b.actor, a.matchResult, b.matchResult);
    ObjectMeans(a.actor, b.actor, a.context, b.context);
    var v, w := Columns(a), Columns(b);
    if SameContent(a, b) {
      forall i | 0 <= i < |KEYS| ensures Meaning(v[i]) == Meaning(w[i]) {}
    }
    if forall i :: 0 <= i < |KEYS| ==> Meaning(v[i]) == Meaning(w[i]) {
      assert Meaning(v[0]) == Meaning(w[0]) && Meaning(v[1]) == Meaning(w[1]) && Meaning(v[2]) == Meaning(w[2])
          && Meaning(v[3]) == Meaning(w[3]) && Meaning(v[4]) == Meaning(w[4]) && Meaning(v[5]) == Meaning(w[5])
          && Meaning(v[6]) == Meaning(w[6]) && Meaning(v[7]) == Meaning(w[7]) && Meaning(v[8]) == Meaning(w[8])
          && Meaning(v[9]) == Meaning(w[9]) && Meaning(v[10]) == Meaning(w[10]) && Meaning(v[11]) == Meaning(w[11]);
    }
  }

  /** Two events are hashed from the same text exactly when they have the same content. */
  lemma CanonicalTextDetermines(a: Event, b: Event)
    requires ValidEvent(a) && ValidEvent(b)
    ensures Print(Canonical(a)) == Print(Canonical(b)) <==> SameContent(a, b)
  {
    KeysDistinct();
    ColumnsValid(a);
    ColumnsValid(b);
    hide Print, SameContent, Columns, Valid, Fields;
    ZipValid(KEYS, Columns(a));
    ZipValid(KEYS, Columns(b));
    CanonicalValid(a);
    CanonicalValid(b);
    PrintIsCanonical(Canonical(a), Canonical(b));
    ZipFields(KEYS, Columns(a), Columns(b));
    ColumnsMean(a, b);
  }

  lemma ColumnsValid(e: Event)
    requires ValidEvent(e)
    ensures forall i :: 0 <= i < |KEYS| ==> Valid(Columns(e)[i]) && !Columns(e)[i].Undefined?
  {
  }

  lemma CanonicalValid(e: Event)
    requires ValidMembers(Zip(KEYS, Columns(e)))
    ensures Valid(Canonical(e))
  {
  }

  // ----------------------------------------------------------- stored rows

  /** Column `c` of a stored object is what came back of `o`: the same fields as after `Store`, keys in any order. */
  ghost predicate ObjectBack(o: Members, c: Members) { ValidMembers(c) && Fields(c) == Fields(StoreMembers(o)) }

  /** The columns read back for event `e`. */
  ghost predicate ReadsBack(e: Event, c: Event) {
    && c.id == e.id && c.ts == e.ts && c.action == e.action && c.result == e.result
    && c.subjectRef == e.subjectRef && c.rpId == e.rpId && c.deviceBindingId == e.deviceBindingId
    && c.assurance == e.assurance && c.sdidTxnRef == e.sdidTxnRef
    && ObjectBack(e.actor, c.actor)
    && c.matchResult.None? == e.matchResult.None?
    && (e.matchResult.Some? ==> ObjectBack(e.matchResult.value, c.matchResult.value))
    && c.context.None? == e.context.None? && (e.context.Some? ==> ObjectBack(e.context.value, c.context.value))
  }

  predicate NoHolesEvent(e: Event) {
    && NoHolesMembers(e.actor) && (e.matchResult.Some? ==> NoHolesMembers(e.matchResult.value))
    && (e.context.Some? ==> NoHolesMembers(e.context.value))
  }

  /** Recomputing from the stored columns prints the original text exactly when the event had no undefined element. */
  lemma RecomputedText(e: Event, c: Event)
    requires ValidEvent(e) && ReadsBack(e, c)
    ensures ValidEvent(c) && (Print(Canonical(c)) == Print(Canonical(e)) <==> NoHolesEvent(e))
  {
    hide Print, Canonical, Fields, NoHolesMembers, StoreMembers;
    CanonicalTextDetermines(c, e);
    StoreMembersMeaning(e.actor);
    if e.matchResult.Some? { StoreMembersMeaning(e.matchResult.value); }
    if e.context.Some? { StoreMembersMeaning(e.context.value); }
  }

  /** A row of `audit_events`. `source` is history: the event as it was appended. */
  datatype Row = Row(seqNo: nat, columns: Event, prevHash: Text, hash: Text, source: Event)

  function PrevHash(rows: seq<Row>, i: int): Text
    requires 0 <= i <= |rows|
  {
    if i == 0 then GENESIS else rows[i - 1].hash
  }

  /** Row `i` links to the row before it and its hash is recomputed from its columns. */
  predicate RowOk(h: Hash, rows: seq<Row>, i: int)
    requires 0 <= i < |rows|
  {
    && rows[i].prevHash == PrevHash(rows, i)
    && rows[i].hash == ComputeHash(h, PrevHash(rows, i), rows[i].columns)
  }

  predicate Accepted(h: Hash, rows: seq<Row>) { forall i :: 0 <= i < |rows| ==> RowOk(h, rows, i) }

  datatype Verdict = Verdict(intact: bool, brokenAtSeq: Option<nat>, count: nat)

  /** `verifyChain`: intact exactly when every row is; otherwise the first row where link or hash fails. */
  method VerifyChain(h: Hash, rows: seq<Row>) returns (v: Verdict)
    ensures v.count == |rows|
    ensures v.intact <==> Accepted(h, rows)
    ensures v.intact <==> v.brokenAtSeq.None?
    ensures !v.intact ==> exists k :: 0 <= k < |rows| && v.brokenAtSeq == Some(rows[k].seqNo) && !RowOk(h, rows, k)
                                   && forall i :: 0 <= i < k ==> RowOk(h, rows, i)
  {
    hide Print, Canonical;
    var prev := GENESIS;
    for n := 0 to |rows|
      invariant prev == PrevHash(rows, n)
      invariant forall i :: 0 <= i < n ==> RowOk(h, rows, i)
    {
      var r := rows[n];
      if r.prevHash != prev {
        assert !RowOk(h, rows, n);
        return Verdict(false, Some(r.seqNo), |rows|);
      }
      if ComputeHash(h, prev, r.columns) != r.hash {
        assert !RowOk(h, rows, n);
        return Verdict(false, Some(r.seqNo), |rows|);
      }
      prev := r.hash;
    }
    return Verdict(true, None, |rows|);
  }
}
