/**
 * `stableStringify` of apps/broker/src/audit/audit.service.ts: the canonical text an audit row is hashed from.
 *
 * Text is a sequence of UTF-16 code units. A finite number is represented by the text `Number::toString` gives it.
 */
module Json {
  import opened Common

  type Unit = n: int | 0 <= n < 0x1_0000
  type Text = seq<Unit>

  function Ascii(s: string): Text
    requires forall i :: 0 <= i < |s| ==> s[i] < 128 as char
  {
    seq(|s|, i requires 0 <= i < |s| => s[i] as int)
  }

  datatype Value =
    | Undefined | Null | Bool(b: bool)
    | Num(text: Text) | NegativeZero | NotFinite
    | Str(s: Text) | Arr(items: Items) | Obj(members: Members)
  datatype Items = NoItems | Item(head: Value, tail: Items)
  /** The own enumerable properties of an object, in some order. */
  datatype Members = NoMembers | Member(key: Text, value: Value, rest: Members)

  // ------------------------------------------------------------- valid inputs

  predicate IsDigit(c: Unit) { 0x30 <= c <= 0x39 }

  /** Digits, minus, plus, point and exponent: all that `Number::toString` writes for a finite number. */
  predicate IsNumberUnit(c: Unit) { IsDigit(c) || c == 0x2d || c == 0x2b || c == 0x2e || c == 0x65 }

  predicate IsNumberText(t: Text) {
    t != [] && (IsDigit(t[0]) || t[0] == 0x2d) && forall i :: 0 <= i < |t| ==> IsNumberUnit(t[i])
  }

  predicate HasKey(ms: Members, k: Text) { ms.Member? && (ms.key == k || HasKey(ms.rest, k)) }

  predicate Valid(v: Value) {
    match v
    case Num(t) => IsNumberText(t)
    case Arr(xs) => ValidItems(xs)
    case Obj(ms) => ValidMembers(ms)
    case _ => true
  }

  predicate ValidItems(xs: Items) { xs.Item? ==> Valid(xs.head) && ValidItems(xs.tail) }

  predicate ValidMembers(ms: Members) {
    ms.Member? ==> Valid(ms.value) && !HasKey(ms.rest, ms.key) && ValidMembers(ms.rest)
  }

  // --------------------------------------------------------------- string text

  predicate IsHigh(c: Unit) { 0xd800 <= c < 0xdc00 }

  predicate IsLow(c: Unit) { 0xdc00 <= c < 0xe000 }

  function HexDigit(d: int): Unit
    requires 0 <= d < 16
  {
    if d < 10 then 0x30 + d else 0x57 + d
  }

  function Hex4(c: Unit): (t: Text)
    ensures |t| == 4
  {
    [HexDigit(c / 16 / 16 / 16), HexDigit(c / 16 / 16 % 16), HexDigit(c / 16 % 16), HexDigit(c % 16)]
  }

  predicate HasLetter(c: Unit) { c in {0x22, 0x5c, 8, 9, 10, 12, 13} }

  function Letter(c: Unit): Unit
    requires HasLetter(c)
  {
    if c == 8 then 0x62 else if c == 9 then 0x74 else if c == 10 then 0x6e
    else if c == 12 then 0x66 else if c == 13 then 0x72 else c
  }

  predicate IsPair(s: Text) { |s| > 1 && IsHigh(s[0]) && IsLow(s[1]) }

  /** How many units the next piece of output stands for. */
  function Width(s: Text): nat
    requires s != []
    ensures 1 <= Width(s) <= |s|
  {
    if IsPair(s) then 2 else 1
  }

  /**
   * `JSON.stringify` on a string, one piece at a time: surrogate pairs, lone surrogates, control characters, the rest.
   */
  function Chunk(s: Text): Text
    requires s != []
  {
    if IsPair(s) then [s[0], s[1]]
    else if HasLetter(s[0]) then [0x5c, Letter(s[0])]
    else if IsHigh(s[0]) || IsLow(s[0]) || s[0] < 0x20 then [0x5c, 0x75] + Hex4(s[0])
    else [s[0]]
  }

  function Body(s: Text): Text {
    if s == [] then [] else Chunk(s) + Body(s[Width(s)..])
  }

  function Quote(s: Text): Text { [0x22] + Body(s) + [0x22] }

  // ------------------------------------------------------------------ ordering

  /** JavaScript's `<` on strings: by code units. */
  predicate Less(a: Text, b: Text) {
    if a == [] then b != []
    else b != [] && (a[0] < b[0] || (a[0] == b[0] && Less(a[1..], b[1..])))
  }

  lemma {:induction false} LessIsTotal(a: Text, b: Text)
    ensures Less(a, b) || a == b || Less(b, a)
    ensures !(Less(a, b) && Less(b, a)) && !Less(a, a)
  {
    if a != [] { LessIsTotal(a[1..], a[1..]); }
    if a != [] && b != [] {
      LessIsTotal(a[1..], b[1..]);
      if a[0] == b[0] && a[1..] == b[1..] { assert a == [a[0]] + a[1..] == b; }
    }
  }

  /** The order of JavaScript's `sort`: by the first unit that differs, a prefix before the longer text. */
  lemma {:induction false} LessIff(a: Text, b: Text)
    ensures Less(a, b) <==> exists n :: LessAt(a, b, n)
  {
    if a == [] || b == [] {
      assert b != [] ==> LessAt(a, b, 0);
    } else if a[0] != b[0] {
      assert a[0] < b[0] ==> LessAt(a, b, 0);
      assert forall n :: LessAt(a, b, n) ==> n == 0 || a[..n][0] == b[..n][0];
    } else {
      LessIff(a[1..], b[1..]);
      forall n | LessAt(a[1..], b[1..], n) ensures LessAt(a, b, n + 1) { LessAfter(a, b, n); }
      forall n | LessAt(a, b, n) ensures LessAt(a[1..], b[1..], n - 1) { LessAfter(a, b, n - 1); }
    }
  }

  predicate LessAt(a: Text, b: Text, n: int) {
    0 <= n <= |a| && n < |b| && a[..n] == b[..n] && (n == |a| || a[n] < b[n])
  }

  lemma LessAfter(a: Text, b: Text, n: int)
    requires a != [] && b != [] && a[0] == b[0]
    ensures n >= 0 ==> (LessAt(a[1..], b[1..], n) <==> LessAt(a, b, n + 1))
    ensures !LessAt(a, b, 0)
  {
    if 0 <= n <= |a| - 1 && n < |b| - 1 {
      assert a[..n + 1] == [a[0]] + a[1..][..n] && b[..n + 1] == [b[0]] + b[1..][..n];
      assert a[1..][..n] == a[..n + 1][1..] && b[1..][..n] == b[..n + 1][1..];
    }
  }

  lemma {:induction false} LessIsTransitive(a: Text, b: Text, c: Text)
    requires Less(a, b) && Less(b, c)
    ensures Less(a, c)
  {
    if a != [] { if a[0] == b[0] == c[0] { LessIsTransitive(a[1..], b[1..], c[1..]); } }
  }

  // ------------------------------------------------------------------- printing

  function Size(v: Value): nat {
    match v
    case Arr(xs) => 1 + ItemsSize(xs)
    case Obj(ms) => 1 + MembersSize(ms)
    case _ => 1
  }

  function ItemsSize(xs: Items): nat { if xs.NoItems? then 0 else 1 + Size(xs.head) + ItemsSize(xs.tail) }

  function MembersSize(ms: Members): nat { if ms.NoMembers? then 0 else 1 + Size(ms.value) + MembersSize(ms.rest) }

  /** `.filter(([, v]) => v !== undefined)` */
  function Defined(ms: Members): (r: Members)
    ensures MembersSize(r) <= MembersSize(ms)
  {
    if ms.NoMembers? then NoMembers
    else if ms.value.Undefined? then Defined(ms.rest)
    else Member(ms.key, ms.value, Defined(ms.rest))
  }

  function Insert(k: Text, v: Value, ms: Members): (r: Members)
    ensures MembersSize(r) == 1 + Size(v) + MembersSize(ms)
  {
    if ms.NoMembers? || Less(k, ms.key) then Member(k, v, ms) else Member(ms.key, ms.value, Insert(k, v, ms.rest))
  }

  /** `.sort` by key; keys are distinct, so any sort gives this list. */
  function Sorted(ms: Members): (r: Members)
    ensures MembersSize(r) == MembersSize(ms)
  {
    if ms.NoMembers? then NoMembers else Insert(ms.key, ms.value, Sorted(ms.rest))
  }

  function Literal(b: bool): Text { if b then [0x74, 0x72, 0x75, 0x65] else [0x66, 0x61, 0x6c, 0x73, 0x65] }

  const NULL: Text := [0x6e, 0x75, 0x6c, 0x6c]

  /** `stableStringify`; an undefined element of an array contributes the empty text to the `join`. */
  function Print(v: Value): Text
    decreases Size(v)
  {
    match v
    case Undefined => []
    case Null => NULL
    case Bool(b) => Literal(b)
    case Num(t) => t
    case NegativeZero => [0x30]
    case NotFinite => NULL
    case Str(s) => Quote(s)
    case Arr(xs) => [0x5b] + Join(xs) + [0x5d]
    case Obj(ms) => [0x7b] + JoinMembers(Sorted(Defined(ms))) + [0x7d]
  }

  function Join(xs: Items): Text
    decreases ItemsSize(xs)
  {
    if xs.NoItems? then [] else if xs.tail.NoItems? then Print(xs.head) else Print(xs.head) + [0x2c] + Join(xs.tail)
  }

  function JoinMembers(ms: Members): Text
    decreases MembersSize(ms)
  {
    if ms.NoMembers? then []
    else
      var entry := Quote(ms.key) + [0x3a] + Print(ms.value);
      if ms.rest.NoMembers? then entry else entry + [0x2c] + JoinMembers(ms.rest)
  }

  // -------------------------------------------------------------------- meaning

  /** A value with objects as maps: key order is gone, so are undefined members. */
  datatype Tree =
    | UndefinedTree | NullTree | BoolTree(b: bool) | NumTree(text: Text) | StrTree(s: Text)
    | ArrTree(items: seq<Tree>) | ObjTree(members: map<Text, Tree>)

  /**
   * What the printer keeps of a value: `NaN` and the infinities are `null`, `-0` is `0`, and an array holding nothing
   * but one undefined element is the empty array.
   */
  function Meaning(v: Value): Tree
    decreases Size(v)
  {
    match v
    case Undefined => UndefinedTree
    case Null => NullTree
    case Bool(b) => BoolTree(b)
    case Num(t) => NumTree(t)
    case NegativeZero => NumTree([0x30])
    case NotFinite => NullTree
    case Str(s) => StrTree(s)
    case Arr(xs) => if Elements(xs) == [UndefinedTree] then ArrTree([]) else ArrTree(Elements(xs))
    case Obj(ms) => ObjTree(Fields(ms))
  }

  function Elements(xs: Items): seq<Tree>
    decreases ItemsSize(xs)
  {
    if xs.NoItems? then [] else [Meaning(xs.head)] + Elements(xs.tail)
  }

  function Fields(ms: Members): map<Text, Tree>
    decreases MembersSize(ms)
  {
    if ms.NoMembers? then map[]
    else if ms.value.Undefined? then Fields(ms.rest)
    else Fields(ms.rest)[ms.key := Meaning(ms.value)]
  }

  // ------------------------------------------------- filtering and sorting keep it

  predicate Ascending(ms: Members) {
    ms.Member? && ms.rest.Member? ==> Less(ms.key, ms.rest.key) && Ascending(ms.rest)
  }

  predicate AllDefined(ms: Members) { ms.Member? ==> !ms.value.Undefined? && AllDefined(ms.rest) }

  lemma {:induction false} HasDefinedKey(ms: Members, k: Text)
    requires HasKey(Defined(ms), k)
    ensures HasKey(ms, k)
  {
    if !(Defined(ms).key == k && ms.key == k) { HasDefinedKey(ms.rest, k); }
  }

  lemma {:induction false} DefinedKeeps(ms: Members)
    requires ValidMembers(ms)
    ensures ValidMembers(Defined(ms)) && AllDefined(Defined(ms)) && Fields(Defined(ms)) == Fields(ms)
  {
    if ms.Member? {
      DefinedKeeps(ms.rest);
      if HasKey(Defined(ms.rest), ms.key) { HasDefinedKey(ms.rest, ms.key); }
    }
  }

  lemma {:induction false} InsertKeys(k: Text, v: Value, ms: Members, q: Text)
    ensures HasKey(Insert(k, v, ms), q) <==> q == k || HasKey(ms, q)
  {
    if ms.Member? && !Less(k, ms.key) { InsertKeys(k, v, ms.rest, q); }
  }

  lemma {:induction false} InsertFields(k: Text, v: Value, ms: Members)
    requires !v.Undefined? && !HasKey(ms, k)
    ensures Fields(Insert(k, v, ms)) == Fields(ms)[k := Meaning(v)]
  {
    hide Meaning;
    if ms.Member? && !Less(k, ms.key) { InsertFields(k, v, ms.rest); }
  }

  lemma {:induction false} InsertAscending(k: Text, v: Value, ms: Members)
    requires Ascending(ms) && !HasKey(ms, k)
    ensures Ascending(Insert(k, v, ms))
  {
    if ms.Member? && !Less(k, ms.key) {
      LessIsTotal(k, ms.key);
      hide Less;
      InsertAscending(k, v, ms.rest);
    }
  }

  lemma {:induction false} InsertKeeps(k: Text, v: Value, ms: Members)
    requires Valid(v) && !v.Undefined? && ValidMembers(ms) && AllDefined(ms) && Ascending(ms) && !HasKey(ms, k)
    ensures var r := Insert(k, v, ms);
      ValidMembers(r) && AllDefined(r) && Ascending(r) && Fields(r) == Fields(ms)[k := Meaning(v)]
  {
    InsertAscending(k, v, ms);
    InsertFields(k, v, ms);
    hide Less, Meaning, Fields, Valid;
    if ms.Member? && !Less(k, ms.key) {
      InsertKeeps(k, v, ms.rest);
      InsertKeys(k, v, ms.rest, ms.key);
    }
  }

  lemma {:induction false} SortedKeys(ms: Members, q: Text)
    ensures HasKey(Sorted(ms), q) <==> HasKey(ms, q)
  {
    if ms.Member? {
      SortedKeys(ms.rest, q);
      InsertKeys(ms.key, ms.value, Sorted(ms.rest), q);
    }
  }

  lemma {:induction false} SortedKeeps(ms: Members)
    requires ValidMembers(ms) && AllDefined(ms)
    ensures var r := Sorted(ms); ValidMembers(r) && AllDefined(r) && Ascending(r) && Fields(r) == Fields(ms)
  {
    if ms.Member? {
      SortedKeeps(ms.rest);
      SortedKeys(ms.rest, ms.key);
      InsertKeeps(ms.key, ms.value, Sorted(ms.rest));
    }
  }

  /** The list an object is printed from: ascending, complete, and with the same fields. */
  lemma PrintedMembers(ms: Members)
    requires ValidMembers(ms)
    ensures var r := Sorted(Defined(ms)); ValidMembers(r) && AllDefined(r) && Ascending(r) && Fields(r) == Fields(ms)
  {
    DefinedKeeps(ms);
    SortedKeeps(Defined(ms));
  }

  // -------------------------------------------- equal meanings print the same text

  /** The first key of an ascending list is its least. */
  lemma {:induction false} FirstIsLeast(ms: Members, k: Text)
    requires ms.Member? && Ascending(ms) && HasKey(ms, k) && k != ms.key
    ensures Less(ms.key, k)
  {
    if ms.rest.key != k {
      FirstIsLeast(ms.rest, k);
      LessIsTransitive(ms.key, ms.rest.key, k);
    }
  }

  lemma {:induction false} FieldsAreKeys(ms: Members, k: Text)
    requires AllDefined(ms)
    ensures k in Fields(ms) <==> HasKey(ms, k)
  {
    hide Meaning;
    if ms.Member? { FieldsAreKeys(ms.rest, k); }
  }

  /** Two ascending lists with the same fields agree on their first member, and on the fields of the rest. */
  lemma SameFirst(a: Members, b: Members)
    requires a.Member? && ValidMembers(a) && AllDefined(a) && Ascending(a)
    requires ValidMembers(b) && AllDefined(b) && Ascending(b)
    requires Fields(a) == Fields(b)
    ensures b.Member? && a.key == b.key && Meaning(a.value) == Meaning(b.value) && Fields(a.rest) == Fields(b.rest)
  {
    hide Meaning, Less, Valid;
    FieldsAreKeys(a, a.key);
    FieldsAreKeys(b, a.key);
    FieldsAreKeys(a, b.key);
    FieldsAreKeys(b, b.key);
    if a.key != b.key {
      FirstIsLeast(a, b.key);
      FirstIsLeast(b, a.key);
      LessIsTotal(a.key, b.key);
    }
    FieldsAreKeys(a.rest, a.key);
    FieldsAreKeys(b.rest, a.key);
    assert Fields(a.rest) == Fields(a) - {a.key} && Fields(b.rest) == Fields(b) - {a.key};
  }

  lemma {:induction false} SameMembersText(a: Members, b: Members)
    requires ValidMembers(a) && AllDefined(a) && Ascending(a) && ValidMembers(b) && AllDefined(b) && Ascending(b)
    requires Fields(a) == Fields(b)
    ensures JoinMembers(a) == JoinMembers(b)
    decreases MembersSize(a)
  {
    if a.Member? {
      SameFirst(a, b);
      SameText(a.value, b.value);
      SameMembersText(a.rest, b.rest);
      if a.rest.Member? { SameFirst(a.rest, b.rest); } else if b.rest.Member? { SameFirst(b.rest, a.rest); }
    } else if b.Member? {
      SameFirst(b, a);
    }
  }

  lemma {:induction false} SameItemsText(xs: Items, ys: Items)
    requires ValidItems(xs) && ValidItems(ys) && Elements(xs) == Elements(ys)
    ensures Join(xs) == Join(ys) && (xs.NoItems? <==> ys.NoItems?)
    decreases ItemsSize(xs), 0
  {
    hide Meaning, Print;
    if xs.Item? && ys.Item? {
      assert Elements(xs)[0] == Meaning(xs.head) && Elements(ys)[0] == Meaning(ys.head);
      assert Elements(xs)[1..] == Elements(xs.tail) && Elements(ys)[1..] == Elements(ys.tail);
      SameText(xs.head, ys.head);
      SameItemsText(xs.tail, ys.tail);
    }
  }

  lemma LoneUndefined(xs: Items)
    requires Elements(xs) == [UndefinedTree]
    ensures Join(xs) == []
  {
    hide Elements;
    assert xs.Item? && xs.tail.NoItems? && Meaning(xs.head) == UndefinedTree by { OneElement(xs); }
  }

  lemma OneElement(xs: Items)
    requires |Elements(xs)| == 1
    ensures xs.Item? && xs.tail.NoItems? && Elements(xs)[0] == Meaning(xs.head)
  {
    hide Meaning;
    assert xs.Item?;
    assert |Elements(xs.tail)| == 0;
  }

  lemma {:induction false} SameText(x: Value, y: Value)
    requires Valid(x) && Valid(y) && Meaning(x) == Meaning(y)
    ensures Print(x) == Print(y)
    decreases Size(x)
  {
    match x
    case Obj(ms) =>
      PrintedMembers(ms);
      PrintedMembers(y.members);
      SameMembersText(Sorted(Defined(ms)), Sorted(Defined(y.members)));
    case Arr(xs) =>
      SameArrayText(xs, y.items);
    case _ =>
  }

  lemma {:induction false} SameArrayText(xs: Items, ys: Items)
    requires ValidItems(xs) && ValidItems(ys) && Meaning(Arr(xs)) == Meaning(Arr(ys))
    ensures Join(xs) == Join(ys)
    decreases ItemsSize(xs), 1
  {
    var e, f := Elements(xs), Elements(ys);
    if e == f {
      SameItemsText(xs, ys);
    } else {
      assert (e == [] && f == [UndefinedTree]) || (f == [] && e == [UndefinedTree]);
      assert e == [] ==> xs.NoItems?;
      assert f == [] ==> ys.NoItems?;
      if e == [] { LoneUndefined(ys); } else { LoneUndefined(xs); }
    }
  }

  // -------------------------------------------- equal texts come from equal meanings

  lemma HexDigitsDiffer(c: int, d: int)
    requires 0 <= c < 16 && 0 <= d < 16 && HexDigit(c) == HexDigit(d)
    ensures c == d
  {
  }

  lemma Hex4Injective(c: Unit, d: Unit)
    requires Hex4(c) == Hex4(d)
    ensures c == d
  {
    var p, q := Hex4(c), Hex4(d);
    assert p[0] == q[0] && p[1] == q[1] && p[2] == q[2] && p[3] == q[3];
    HexDigitsDiffer(c / 16 / 16 / 16, d / 16 / 16 / 16);
    HexDigitsDiffer(c / 16 / 16 % 16, d / 16 / 16 % 16);
    HexDigitsDiffer(c / 16 % 16, d / 16 % 16);
    HexDigitsDiffer(c % 16, d % 16);
  }

  lemma ChunkLength(s: Text)
    requires s != []
    ensures |Chunk(s)| >= 1 && Chunk(s)[0] != 0x22
    ensures Chunk(s)[0] == 0x5c <==> |Chunk(s)| == 6 || (|Chunk(s)| == 2 && !IsPair(s))
    ensures |Chunk(s)| == 2 && IsPair(s) <==> IsHigh(Chunk(s)[0])
    ensures |Chunk(s)| == 6 ==> Chunk(s)[1] == 0x75
    ensures |Chunk(s)| == 2 && !IsPair(s) ==> Chunk(s)[1] != 0x75
  {
    hide Hex4;
  }

  /** Pieces of string text are told apart by their own units, whatever follows. */
  lemma ChunkUnique(s: Text, t: Text, x: Text, y: Text)
    requires s != [] && t != [] && Chunk(s) + x == Chunk(t) + y
    ensures Width(s) == Width(t) && s[..Width(s)] == t[..Width(t)] && x == y
  {
    ChunkLength(s);
    ChunkLength(t);
    var a, b := Chunk(s), Chunk(t);
    assert (a + x)[0] == a[0] && (b + y)[0] == b[0];
    if |a| >= 2 { assert (a + x)[1] == a[1]; }
    if |b| >= 2 { assert (b + y)[1] == b[1]; }
    assert |a| == |b|;
    assert a == (a + x)[..|a|] && b == (b + y)[..|b|] && x == (a + x)[|a|..] && y == (b + y)[|b|..];
    ChunkInjective(s, t);
  }

  lemma ChunkInjective(s: Text, t: Text)
    requires s != [] && t != [] && Chunk(s) == Chunk(t)
    ensures Width(s) == Width(t) && s[..Width(s)] == t[..Width(t)]
  {
    ChunkLength(s);
    ChunkLength(t);
    var a, b := Chunk(s), Chunk(t);
    if |a| == 6 {
      assert a[2..] == Hex4(s[0]) && b[2..] == Hex4(t[0]);
      Hex4Injective(s[0], t[0]);
    }
    hide Hex4;
    assert a[0] == b[0] && (|a| == 2 ==> a[1] == b[1]);
  }

  lemma {:induction false} BodyUnique(s: Text, t: Text, x: Text, y: Text)
    requires Body(s) + ([0x22] + x) == Body(t) + ([0x22] + y)
    ensures s == t && x == y
  {
    hide Chunk;
    var p, q := [0x22] + x, [0x22] + y;
    assert p == [] + p && q == [] + q;
    if s != [] { BodyUnfold(s, p); }
    if t != [] { BodyUnfold(t, q); }
    if s != [] && t != [] {
      ChunkUnique(s, t, Body(s[Width(s)..]) + p, Body(t[Width(t)..]) + q);
      BodyUnique(s[Width(s)..], t[Width(t)..], x, y);
      assert s == s[..Width(s)] + s[Width(s)..] && t == t[..Width(t)] + t[Width(t)..];
    } else if s == [] && t == [] {
      assert x == p[1..] && y == q[1..];
    } else if s == [] {
      ChunkLength(t);
    } else {
      ChunkLength(s);
    }
  }

  lemma BodyUnfold(s: Text, p: Text)
    requires s != []
    ensures Body(s) + p == Chunk(s) + (Body(s[Width(s)..]) + p)
    ensures |Chunk(s)| >= 1 ==> (Body(s) + p)[0] == Chunk(s)[0]
  {
    hide Chunk;
  }

  lemma QuoteUnique(s: Text, t: Text, x: Text, y: Text)
    requires Quote(s) + x == Quote(t) + y
    ensures s == t && x == y
  {
    hide Body;
    assert (Quote(s) + x)[1..] == Body(s) + ([0x22] + x) && (Quote(t) + y)[1..] == Body(t) + ([0x22] + y);
    BodyUnique(s, t, x, y);
  }

  /** What may follow a value: nothing, or one of the units that close or continue an array or object. */
  predicate Delimited(x: Text) { x == [] || x[0] in {0x2c, 0x5d, 0x7d} }

  /** What a text begins with. */
  function Lead(x: Text): int { if x == [] then -1 else x[0] }

  lemma PrintLead(v: Value, x: Text)
    requires Valid(v)
    ensures match v
      case Undefined => Print(v) + x == x
      case Null => Lead(Print(v) + x) == 0x6e
      case NotFinite => Lead(Print(v) + x) == 0x6e
      case Bool(b) => Lead(Print(v) + x) == (if b then 0x74 else 0x66)
      case Num(t) => Lead(Print(v) + x) == 0x2d || 0x30 <= Lead(Print(v) + x) <= 0x39
      case NegativeZero => Lead(Print(v) + x) == 0x30
      case Str(_) => Lead(Print(v) + x) == 0x22
      case Arr(_) => Lead(Print(v) + x) == 0x5b
      case Obj(_) => Lead(Print(v) + x) == 0x7b
  {
    hide Join, JoinMembers, Body;
    match v
    case Undefined => assert Print(v) + x == x;
    case _ =>
  }

  /** A number's text ends where the number units end. */
  lemma NumberUnique(s: Text, t: Text, x: Text, y: Text)
    requires IsNumberText(s) && IsNumberText(t) && Delimited(x) && Delimited(y) && s + x == t + y
    ensures s == t && x == y
  {
    var u := s + x;
    assert forall i :: 0 <= i < |s| ==> IsNumberUnit(u[i]);
    assert forall i :: 0 <= i < |t| ==> IsNumberUnit(u[i]);
    assert |s| < |u| ==> u[|s|] == x[0];
    assert |t| < |u| ==> u[|t|] == y[0];
    assert |s| == |t|;
    assert s == u[..|s|] && t == u[..|t|] && x == u[|s|..] && y == u[|t|..];
  }

  /** The number a value prints, if it prints a number. */
  predicate IsNumber(v: Value) { v.Num? || v.NegativeZero? }

  lemma NumberValueUnique(v: Value, w: Value, x: Text, y: Text)
    requires IsNumber(v) && IsNumber(w) && Valid(v) && Valid(w) && Delimited(x) && Delimited(y)
    requires Print(v) + x == Print(w) + y
    ensures Meaning(v) == Meaning(w) && x == y
  {
    NumberUnique(Print(v), Print(w), x, y);
  }

  /** After a value comes a delimiter, so a text is cut into a value and its continuation in one way only. */
  lemma {:induction false} PrintUnique(v: Value, w: Value, x: Text, y: Text)
    requires Valid(v) && Valid(w) && Delimited(x) && Delimited(y) && Print(v) + x == Print(w) + y
    ensures Meaning(v) == Meaning(w) && x == y
    decreases Size(v)
  {
    PrintLead(v, x);
    PrintLead(w, y);
    match v
    case Undefined => assert w.Undefined?;
    case Null => SamePrefix(NULL, x, y);
    case NotFinite => SamePrefix(NULL, x, y);
    case Bool(b) => SamePrefix(Literal(b), x, y);
    case Num(_) => NumberValueUnique(v, w, x, y);
    case NegativeZero => NumberValueUnique(v, w, x, y);
    case Str(s) => QuoteUnique(s, w.s, x, y);
    case Arr(xs) => ArrayUnique(xs, w.items, x, y);
    case Obj(ms) => ObjectUnique(ms, w.members, x, y);
  }

  lemma Enclosed(open: Unit, inside: Text, close: Unit, x: Text)
    ensures ([open] + inside + [close] + x)[1..] == inside + ([close] + x)
  {
  }

  /** The text after an array's first element. */
  function Rest(xs: Items): Text { if xs.NoItems? then [] else [0x2c] + Join(xs) }

  lemma JoinIsFirstAndRest(xs: Items, x: Text)
    requires xs.Item?
    ensures Join(xs) + x == Print(xs.head) + (Rest(xs.tail) + x)
  {
    hide Print;
    if xs.tail.NoItems? { assert Rest(xs.tail) + x == x; }
  }

  /** A closing bracket, or a comma: how the two kinds of rest begin. */
  lemma RestLead(xs: Items, x: Text)
    ensures var p := [0x5d] + x;
      && Rest(xs) + p != [] && (Rest(xs) + p)[0] == (if xs.NoItems? then 0x5d else 0x2c)
      && (Rest(xs) + p)[1..] == (if xs.NoItems? then x else Join(xs) + p)
  {
    hide Join;
    var p := [0x5d] + x;
    if xs.NoItems? {
      assert Rest(xs) + p == p;
    } else {
      assert Rest(xs) + p == [0x2c] + (Join(xs) + p);
    }
  }

  lemma {:induction false} RestUnique(xs: Items, ys: Items, x: Text, y: Text)
    requires ValidItems(xs) && ValidItems(ys) && Rest(xs) + ([0x5d] + x) == Rest(ys) + ([0x5d] + y)
    ensures Elements(xs) == Elements(ys) && x == y
    decreases ItemsSize(xs), 1
  {
    RestLead(xs, x);
    RestLead(ys, y);
    hide Rest, Join, Meaning, Valid;
    if xs.Item? { ListUnique(xs, ys, x, y); }
  }

  lemma {:induction false} ListUnique(xs: Items, ys: Items, x: Text, y: Text)
    requires xs.Item? && ys.Item? && ValidItems(xs) && ValidItems(ys)
    requires Join(xs) + ([0x5d] + x) == Join(ys) + ([0x5d] + y)
    ensures Elements(xs) == Elements(ys) && x == y
    decreases ItemsSize(xs), 0
  {
    var p, q := [0x5d] + x, [0x5d] + y;
    RestLead(xs.tail, x);
    RestLead(ys.tail, y);
    hide Join, Meaning, Print, Rest;
    JoinIsFirstAndRest(xs, p);
    JoinIsFirstAndRest(ys, q);
    PrintUnique(xs.head, ys.head, Rest(xs.tail) + p, Rest(ys.tail) + q);
    RestUnique(xs.tail, ys.tail, x, y);
  }

  /** An empty list prints like a list of one undefined element. */
  function Padded(xs: Items): Items { if xs.NoItems? then Item(Undefined, NoItems) else xs }

  lemma PaddedMeans(xs: Items, ys: Items)
    requires Elements(Padded(xs)) == Elements(Padded(ys))
    ensures Meaning(Arr(xs)) == Meaning(Arr(ys))
  {
    assert Elements(Item(Undefined, NoItems)) == [UndefinedTree];
  }

  lemma {:induction false} ArrayUnique(xs: Items, ys: Items, x: Text, y: Text)
    requires ValidItems(xs) && ValidItems(ys) && Print(Arr(xs)) + x == Print(Arr(ys)) + y
    ensures Meaning(Arr(xs)) == Meaning(Arr(ys)) && x == y
    decreases ItemsSize(xs), 1
  {
    assert Join(Padded(xs)) == Join(xs) && Join(Padded(ys)) == Join(ys);
    assert ValidItems(Padded(xs)) && ValidItems(Padded(ys));
    hide Meaning, Valid, Join;
    Enclosed(0x5b, Join(xs), 0x5d, x);
    Enclosed(0x5b, Join(ys), 0x5d, y);
    if xs.NoItems? { UndefinedListUnique(Padded(ys), x, y); } else { ListUnique(xs, Padded(ys), x, y); }
    PaddedMeans(xs, ys);
  }

  lemma UndefinedListUnique(ys: Items, x: Text, y: Text)
    requires ys.Item? && ValidItems(ys) && [] + ([0x5d] + x) == Join(ys) + ([0x5d] + y)
    ensures Elements(Item(Undefined, NoItems)) == Elements(ys) && x == y
  {
    var p, q := [0x5d] + x, [0x5d] + y;
    assert [] + p == p;
    RestLead(ys.tail, y);
    hide Join, Print, Elements, Rest;
    JoinIsFirstAndRest(ys, q);
    PrintLead(ys.head, Rest(ys.tail) + q);
    assert ys.head.Undefined? && ys.tail.NoItems?;
    SamePrefix([0x5d], x, y);
  }

  function RestMembers(ms: Members): Text { if ms.NoMembers? then [] else [0x2c] + JoinMembers(ms) }

  lemma JoinMembersIsFirstAndRest(ms: Members, x: Text)
    requires ms.Member?
    ensures JoinMembers(ms) + x == Quote(ms.key) + ([0x3a] + (Print(ms.value) + (RestMembers(ms.rest) + x)))
  {
    hide Print, Quote;
    var entry := Quote(ms.key) + [0x3a] + Print(ms.value);
    Assoc3(Quote(ms.key), [0x3a], Print(ms.value), RestMembers(ms.rest) + x);
    if ms.rest.NoMembers? {
      assert RestMembers(ms.rest) + x == x;
    } else {
      assert entry + [0x2c] + JoinMembers(ms.rest) + x == entry + (RestMembers(ms.rest) + x);
    }
  }

  lemma Assoc3(a: Text, b: Text, c: Text, d: Text)
    ensures a + b + c + d == a + (b + (c + d))
  {
  }

  lemma QuoteLead(s: Text, x: Text)
    ensures Quote(s) + x != [] && (Quote(s) + x)[0] == 0x22
  {
    hide Body;
  }

  /** A closing brace or a quoted key: how a list of members begins. */
  lemma MembersLead(ms: Members, x: Text)
    ensures var p := [0x7d] + x;
      && JoinMembers(ms) + p != [] && (JoinMembers(ms) + p)[0] == (if ms.NoMembers? then 0x7d else 0x22)
      && (ms.NoMembers? ==> (JoinMembers(ms) + p)[1..] == x)
  {
    var p := [0x7d] + x;
    if ms.NoMembers? {
      assert JoinMembers(ms) + p == p;
    } else {
      hide JoinMembers, Print, Quote;
      JoinMembersIsFirstAndRest(ms, p);
      QuoteLead(ms.key, [0x3a] + (Print(ms.value) + (RestMembers(ms.rest) + p)));
    }
  }

  /** A closing brace or a comma: how the rest of one begins. */
  lemma RestMembersLead(ms: Members, x: Text)
    ensures var p := [0x7d] + x;
      && RestMembers(ms) + p != [] && (RestMembers(ms) + p)[0] == (if ms.NoMembers? then 0x7d else 0x2c)
      && (RestMembers(ms) + p)[1..] == (if ms.NoMembers? then x else JoinMembers(ms) + p)
  {
    hide JoinMembers;
    var p := [0x7d] + x;
    if ms.NoMembers? {
      assert RestMembers(ms) + p == p;
    } else {
      assert RestMembers(ms) + p == [0x2c] + (JoinMembers(ms) + p);
    }
  }

  lemma {:induction false} RestMembersUnique(a: Members, b: Members, x: Text, y: Text)
    requires ValidMembers(a) && ValidMembers(b) && AllDefined(a) && AllDefined(b)
    requires RestMembers(a) + ([0x7d] + x) == RestMembers(b) + ([0x7d] + y)
    ensures Fields(a) == Fields(b) && x == y
    decreases MembersSize(a), 1
  {
    RestMembersLead(a, x);
    RestMembersLead(b, y);
    hide JoinMembers, RestMembers, Meaning, Valid;
    if a.Member? { MembersUnique(a, b, x, y); }
  }

  lemma {:induction false} MembersUnique(a: Members, b: Members, x: Text, y: Text)
    requires ValidMembers(a) && ValidMembers(b) && AllDefined(a) && AllDefined(b)
    requires JoinMembers(a) + ([0x7d] + x) == JoinMembers(b) + ([0x7d] + y)
    ensures Fields(a) == Fields(b) && x == y
    decreases MembersSize(a), 0
  {
    var p, q := [0x7d] + x, [0x7d] + y;
    MembersLead(a, x);
    MembersLead(b, y);
    hide JoinMembers, RestMembers, Meaning, Print, Quote;
    if a.Member? {
      JoinMembersIsFirstAndRest(a, p);
      JoinMembersIsFirstAndRest(b, q);
      var u, v := Print(a.value) + (RestMembers(a.rest) + p), Print(b.value) + (RestMembers(b.rest) + q);
      QuoteUnique(a.key, b.key, [0x3a] + u, [0x3a] + v);
      SamePrefix([0x3a], u, v);
      RestMembersDelimited(a.rest, x);
      RestMembersDelimited(b.rest, y);
      PrintUnique(a.value, b.value, RestMembers(a.rest) + p, RestMembers(b.rest) + q);
      RestMembersUnique(a.rest, b.rest, x, y);
    }
  }

  lemma RestMembersDelimited(ms: Members, x: Text)
    ensures Delimited(RestMembers(ms) + ([0x7d] + x))
  {
    RestMembersLead(ms, x);
    hide RestMembers;
  }

  lemma {:induction false} ObjectUnique(ms: Members, ns: Members, x: Text, y: Text)
    requires ValidMembers(ms) && ValidMembers(ns) && Print(Obj(ms)) + x == Print(Obj(ns)) + y
    ensures Meaning(Obj(ms)) == Meaning(Obj(ns)) && x == y
    decreases MembersSize(ms), 2
  {
    var a, b := Sorted(Defined(ms)), Sorted(Defined(ns));
    PrintedMembers(ms);
    PrintedMembers(ns);
    hide JoinMembers, Sorted, Defined, Valid;
    Enclosed(0x7b, JoinMembers(a), 0x7d, x);
    Enclosed(0x7b, JoinMembers(b), 0x7d, y);
    MembersUnique(a, b, x, y);
  }

  // ------------------------------------------------------------------ the theorem

  /**
   * `stableStringify` is canonical and unambiguous: two values print the same text exactly when they mean the same,
   * that is, when they are equal up to key order at any nesting, undefined members, `NaN` and the infinities as `null`,
   * `-0` as `0`, and a lone undefined element as no element.
   */
  lemma PrintIsCanonical(x: Value, y: Value)
    requires Valid(x) && Valid(y)
    ensures Print(x) == Print(y) <==> Meaning(x) == Meaning(y)
  {
    if Print(x) == Print(y) {
      assert Print(x) + [] == Print(y) + [];
      PrintUnique(x, y, [], []);
    }
    if Meaning(x) == Meaning(y) { SameText(x, y); }
  }

  /** No undefined element, `-0`, `NaN` or infinity anywhere: what JSON can say. */
  predicate IsJson(v: Value) {
    match v
    case Undefined => false
    case NegativeZero => false
    case NotFinite => false
    case Arr(xs) => IsJsonItems(xs)
    case Obj(ms) => IsJsonMembers(ms)
    case _ => true
  }

  predicate IsJsonItems(xs: Items) { xs.Item? ==> IsJson(xs.head) && IsJsonItems(xs.tail) }

  predicate IsJsonMembers(ms: Members) { ms.Member? ==> IsJson(ms.value) && IsJsonMembers(ms.rest) }

  /** Equality up to key order, by looking members up. */
  predicate Same(x: Value, y: Value)
    decreases Size(x)
  {
    match x
    case Arr(xs) => y.Arr? && SameItems(xs, y.items)
    case Obj(ms) => y.Obj? && SameMembers(ms, y.members) && KeysIn(y.members, ms)
    case _ => x == y
  }

  predicate SameItems(xs: Items, ys: Items)
    decreases ItemsSize(xs)
  {
    if xs.NoItems? then ys.NoItems? else ys.Item? && Same(xs.head, ys.head) && SameItems(xs.tail, ys.tail)
  }

  /** Every member of `ms` is a member of `ns`, with the same value. */
  predicate SameMembers(ms: Members, ns: Members)
    decreases MembersSize(ms)
  {
    ms.Member? ==> HasKey(ns, ms.key) && Same(ms.value, Lookup(ns, ms.key)) && SameMembers(ms.rest, ns)
  }

  predicate KeysIn(ms: Members, ns: Members) { ms.Member? ==> HasKey(ns, ms.key) && KeysIn(ms.rest, ns) }

  function Lookup(ms: Members, k: Text): Value
    requires HasKey(ms, k)
  {
    if ms.key == k then ms.value else Lookup(ms.rest, k)
  }

  lemma {:induction false} LookupField(ms: Members, k: Text)
    requires HasKey(ms, k) && ValidMembers(ms) && IsJsonMembers(ms)
    ensures Valid(Lookup(ms, k)) && IsJson(Lookup(ms, k)) && k in Fields(ms) && Fields(ms)[k] == Meaning(Lookup(ms, k))
  {
    hide Meaning;
    if ms.key != k { LookupField(ms.rest, k); }
  }

  lemma {:induction false} JsonDefined(ms: Members)
    requires IsJsonMembers(ms)
    ensures AllDefined(ms)
  {
    if ms.Member? { JsonDefined(ms.rest); }
  }

  /** `ns` holds every member of `ms` with the same meaning. */
  ghost predicate Covers(ms: Members, ns: Members) {
    forall k | HasKey(ms, k) :: HasKey(ns, k) && Meaning(Lookup(ms, k)) == Meaning(Lookup(ns, k))
  }

  lemma {:induction false} SameMembersMeaning(ms: Members, ns: Members)
    requires ValidMembers(ms) && ValidMembers(ns) && IsJsonMembers(ms) && IsJsonMembers(ns)
    ensures SameMembers(ms, ns) <==> Covers(ms, ns)
    decreases MembersSize(ms)
  {
    hide Meaning, Same;
    if ms.Member? {
      SameMembersMeaning(ms.rest, ns);
      if HasKey(ns, ms.key) {
        LookupField(ns, ms.key);
        SameMeaning(ms.value, Lookup(ns, ms.key));
      }
      assert HasKey(ms, ms.key) && Lookup(ms, ms.key) == ms.value;
      forall k | HasKey(ms.rest, k) ensures HasKey(ms, k) && Lookup(ms, k) == Lookup(ms.rest, k) {}
    }
  }

  ghost predicate Within(ms: Members, ns: Members) { forall k | HasKey(ms, k) :: HasKey(ns, k) }

  lemma {:induction false} KeysInMeans(ms: Members, ns: Members)
    ensures KeysIn(ms, ns) <==> Within(ms, ns)
  {
    if ms.Member? {
      KeysInMeans(ms.rest, ns);
      if Within(ms, ns) {
        assert HasKey(ms, ms.key);
        forall k | HasKey(ms.rest, k) ensures HasKey(ns, k) { assert HasKey(ms, k); }
      }
      if KeysIn(ms, ns) {
        forall k | HasKey(ms, k) ensures HasKey(ns, k) { if k != ms.key { assert HasKey(ms.rest, k); } }
      }
    }
  }

  lemma FieldAt(ms: Members, k: Text)
    requires ValidMembers(ms) && IsJsonMembers(ms)
    ensures k in Fields(ms) <==> HasKey(ms, k)
    ensures HasKey(ms, k) ==> Fields(ms)[k] == Meaning(Lookup(ms, k))
  {
    hide Meaning, Fields;
    JsonDefined(ms);
    FieldsAreKeys(ms, k);
    if HasKey(ms, k) { LookupField(ms, k); }
  }

  lemma FieldsEqual(ms: Members, ns: Members)
    requires ValidMembers(ms) && ValidMembers(ns) && IsJsonMembers(ms) && IsJsonMembers(ns)
    ensures Fields(ms) == Fields(ns) <==> Covers(ms, ns) && Within(ns, ms)
  {
    hide Meaning, Fields, HasKey, Lookup, ValidMembers, IsJsonMembers;
    if Fields(ms) == Fields(ns) {
      forall k | HasKey(ms, k) ensures HasKey(ns, k) && Meaning(Lookup(ms, k)) == Meaning(Lookup(ns, k)) {
        FieldAt(ms, k);
        FieldAt(ns, k);
      }
      forall k | HasKey(ns, k) ensures HasKey(ms, k) { FieldAt(ms, k); FieldAt(ns, k); }
    }
    if Covers(ms, ns) && Within(ns, ms) {
      forall k ensures (k in Fields(ms) <==> k in Fields(ns)) && (k in Fields(ms) ==> Fields(ms)[k] == Fields(ns)[k]) {
        FieldAt(ms, k);
        FieldAt(ns, k);
      }
    }
  }

  lemma {:induction false} SameItemsMeaning(xs: Items, ys: Items)
    requires ValidItems(xs) && ValidItems(ys) && IsJsonItems(xs) && IsJsonItems(ys)
    ensures SameItems(xs, ys) <==> Elements(xs) == Elements(ys)
    ensures Elements(xs) != [UndefinedTree] && Elements(ys) != [UndefinedTree]
    decreases ItemsSize(xs)
  {
    if xs.Item? { JsonMeaning(xs.head); assert Elements(xs)[0] == Meaning(xs.head); }
    if ys.Item? { JsonMeaning(ys.head); assert Elements(ys)[0] == Meaning(ys.head); }
    hide Meaning, Same;
    if xs.Item? && ys.Item? {
      SameMeaning(xs.head, ys.head);
      SameItemsMeaning(xs.tail, ys.tail);
      assert Elements(xs)[1..] == Elements(xs.tail) && Elements(ys)[1..] == Elements(ys.tail);
    }
  }

  lemma JsonMeaning(v: Value)
    requires IsJson(v)
    ensures Meaning(v) != UndefinedTree
  {
    hide Elements, Fields;
  }

  lemma {:induction false} SameMeaning(x: Value, y: Value)
    requires Valid(x) && Valid(y) && IsJson(x) && IsJson(y)
    ensures Same(x, y) <==> Meaning(x) == Meaning(y)
    decreases Size(x)
  {
    match x
    case Obj(ms) =>
      if y.Obj? {
        hide SameMembers, KeysIn, Fields, Covers;
        SameMembersMeaning(ms, y.members);
        KeysInMeans(y.members, ms);
        FieldsEqual(ms, y.members);
      }
    case Arr(xs) =>
      if y.Arr? { SameItemsMeaning(xs, y.items); }
    case _ =>
  }

  /** On JSON values: the same text exactly for values equal up to object key order, at any nesting. */
  lemma PrintIsCanonicalOnJson(x: Value, y: Value)
    requires Valid(x) && Valid(y) && IsJson(x) && IsJson(y)
    ensures Print(x) == Print(y) <==> Same(x, y)
  {
    hide Print, Same, Meaning;
    PrintIsCanonical(x, y);
    SameMeaning(x, y);
  }
}
