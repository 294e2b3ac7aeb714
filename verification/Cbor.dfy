/**
 * The CBOR decoder of packages/attestation/src/cbor.ts.
 *
 * `Encode` is the specification: the shortest-form, definite-length encoding of a value. `ParseValue` is the reader's
 * behaviour as a function of the buffer, the cursor and the item counter; `CborReader` is the reader itself.
 */
module Cbor {
  import opened Common
  import Radix


  /** Text is kept as its UTF-8 bytes. A map lists its members in insertion order: key, value, key, value, ... */
  datatype Value =
    | Int(n: int)
    | Bytes(raw: seq<Byte>)
    | Text(utf8: seq<Byte>)
    | Array(items: seq<Value>)
    | Map(members: seq<Value>)
    | Simple(ai: int)

  datatype Key = IntKey(n: int) | TextKey(text: seq<Byte>)

  datatype Limits = Limits(maxDepth: int, maxItems: int, maxBytes: int)

  datatype Error =
    | InputTooLarge | TooDeep | TooManyItems | UnexpectedEnd | IndefiniteLength | ReservedInfo | NonCanonical
    | Absurd | LengthExceedsInput | InvalidUtf8 | BadKey | DuplicateKey | Tagged | UnsupportedSimple | TrailingBytes

  // ---------------------------------------------------------------- text

  predicate Continuation(b: int, low: int, high: int) { low <= b <= high }

  /** What a fatal UTF-8 `TextDecoder` accepts: no overlong form, no surrogate, nothing above U+10FFFF. */
  predicate ValidUtf8(s: seq<Byte>)
    decreases |s|
  {
    if s == [] then true
    else if s[0] < 0x80 then ValidUtf8(s[1..])
    else if 0xC2 <= s[0] <= 0xDF then |s| >= 2 && Continuation(s[1], 0x80, 0xBF) && ValidUtf8(s[2..])
    else if 0xE0 <= s[0] <= 0xEF then
      && |s| >= 3
      && Continuation(s[1], if s[0] == 0xE0 then 0xA0 else 0x80, if s[0] == 0xED then 0x9F else 0xBF)
      && Continuation(s[2], 0x80, 0xBF)
      && ValidUtf8(s[3..])
    else if 0xF0 <= s[0] <= 0xF4 then
      && |s| >= 4
      && Continuation(s[1], if s[0] == 0xF0 then 0x90 else 0x80, if s[0] == 0xF4 then 0x8F else 0xBF)
      && Continuation(s[2], 0x80, 0xBF)
      && Continuation(s[3], 0x80, 0xBF)
      && ValidUtf8(s[4..])
    else false
  }

  predicate StartsWithBom(s: seq<Byte>) { |s| >= 3 && s[0] == 0xEF && s[1] == 0xBB && s[2] == 0xBF }

  /** `TextDecoder` drops one leading byte order mark from what it hands out. */
  function StripBom(s: seq<Byte>): seq<Byte> { if StartsWithBom(s) then s[3..] else s }

  // ------------------------------------------------- specification: encoder

  /** Additional information: the argument itself, or the code of the shortest field that holds it. */
  function Info(arg: nat): int {
    if arg < 24 then arg
    else if arg < 0x100 then 24
    else if arg < 0x1_0000 then 25
    else if arg < 0x1_0000_0000 then 26
    else 27
  }

  /** Bytes of argument that follow an initial byte with this additional information. */
  function InfoWidth(ai: int): nat {
    if ai < 24 then 0 else if ai == 24 then 1 else if ai == 25 then 2 else if ai == 26 then 4 else 8
  }

  /** Initial byte and argument, in the shortest of the five forms. */
  function Head(major: int, arg: nat): (r: seq<Byte>)
    requires 0 <= major < 8
    ensures |r| >= 1
  {
    [major * 32 + Info(arg)] + FixedOctets(arg, InfoWidth(Info(arg)))
  }

  predicate Countable(n: int) { n <= MAX_SAFE_INTEGER }

  /** A map key is a text, or an integer that a JavaScript number holds exactly. */
  predicate IsKey(v: Value) { v.Text? || (v.Int? && -0x20_0000_0000_0000 <= v.n <= 0x1F_FFFF_FFFF_FFFF) }

  /** Two keys are handed out alike. */
  predicate SameKey(v: Value, w: Value) {
    (v.Text? && w.Text? && StripBom(v.utf8) == StripBom(w.utf8)) || (v.Int? && w.Int? && v.n == w.n)
  }

  /** Every even position holds a key, and no two hold the same one. */
  predicate DistinctKeys(members: seq<Value>) {
    && (forall i :: 0 <= i < |members| && i % 2 == 0 ==> IsKey(members[i]))
    && (forall i, j :: 0 <= i < j < |members| && i % 2 == 0 && j % 2 == 0 ==> !SameKey(members[i], members[j]))
  }

  predicate WellFormed(v: Value)
    decreases v, 1
  {
    match v
    case Int(n) => -0x1_0000_0000_0000_0000 <= n < 0x1_0000_0000_0000_0000
    case Bytes(s) => Countable(|s|)
    case Text(s) => Countable(|s|) && ValidUtf8(s)
    case Array(vs) => Countable(|vs|) && AllWellFormed(vs)
    case Map(ms) => |ms| % 2 == 0 && Countable(|ms| / 2) && DistinctKeys(ms) && AllWellFormed(ms)
    case Simple(ai) => 20 <= ai <= 23
  }

  predicate AllWellFormed(vs: seq<Value>)
    decreases vs, 0
  {
    vs == [] || (WellFormed(vs[0]) && AllWellFormed(vs[1..]))
  }

  function Encode(v: Value): (r: seq<Byte>)
    requires WellFormed(v)
    ensures |r| >= 1
    decreases v, 1
  {
    match v
    case Int(n) => if n >= 0 then Head(0, n) else Head(1, -1 - n)
    case Bytes(s) => Head(2, |s|) + s
    case Text(s) => Head(3, |s|) + s
    case Array(vs) => Head(4, |vs|) + EncodeAll(vs)
    case Map(ms) => Head(5, |ms| / 2) + EncodeAll(ms)
    case Simple(ai) => [7 * 32 + ai]
  }

  function EncodeAll(vs: seq<Value>): (r: seq<Byte>)
    requires AllWellFormed(vs)
    ensures |r| >= |vs|
    decreases vs, 0
  {
    if vs == [] then [] else Encode(vs[0]) + EncodeAll(vs[1..])
  }

  /** Data items in a value, itself included. */
  function Count(v: Value): (n: nat)
    ensures n >= 1
    decreases v, 1
  {
    match v
    case Array(vs) => 1 + CountAll(vs)
    case Map(ms) => 1 + CountAll(ms)
    case _ => 1
  }

  function CountAll(vs: seq<Value>): nat
    decreases vs, 0
  {
    if vs == [] then 0 else Count(vs[0]) + CountAll(vs[1..])
  }

  /** At most `levels` containers enclose any item of the value. */
  predicate NestsWithin(v: Value, levels: int)
    decreases v, 1
  {
    && levels >= 0
    && (v.Array? ==> AllNestWithin(v.items, levels - 1))
    && (v.Map? ==> AllNestWithin(v.members, levels - 1))
  }

  predicate AllNestWithin(vs: seq<Value>, levels: int)
    decreases vs, 0
  {
    vs == [] || (NestsWithin(vs[0], levels) && AllNestWithin(vs[1..], levels))
  }

  /** What the decoder promises to accept, without mentioning how it reads. */
  predicate Encodes(input: seq<Byte>, v: Value, lim: Limits) {
    && |input| <= lim.maxBytes
    && WellFormed(v)
    && input == Encode(v)
    && NestsWithin(v, lim.maxDepth)
    && Count(v) <= lim.maxItems
  }

  // ------------------------------------------------------ the reader's behaviour

  /** The argument of an initial byte; `pos` is just past that byte. */
  function ParseArgument(buf: seq<Byte>, pos: nat, ai: int): (r: Result<(nat, nat), Error>)
    requires pos <= |buf| && 0 <= ai < 32
    ensures r.Ok? ==> pos <= r.value.1 <= |buf|
  {
    if ai < 24 then Ok((ai, pos))
    else if ai == 31 then Err(IndefiniteLength)
    else if ai > 27 then Err(ReservedInfo)
    else
      var width := InfoWidth(ai);
      if width > |buf| - pos then Err(LengthExceedsInput)
      else
        var big := Radix.Value(256, buf[pos..pos + width]);
        if big < (if ai == 24 then 24 else Radix.Pow(256, width / 2)) then Err(NonCanonical)
        else Ok((big, pos + width))
  }

  function ParseCount(buf: seq<Byte>, pos: nat, ai: int): (r: Result<(nat, nat), Error>)
    requires pos <= |buf| && 0 <= ai < 32
    ensures r.Ok? ==> pos <= r.value.1 <= |buf| && r.value.0 <= |buf| - r.value.1
  {
    var a := ParseArgument(buf, pos, ai);
    if a.Err? then a
    else if a.value.0 > MAX_SAFE_INTEGER then Err(Absurd)
    else if a.value.0 > |buf| - a.value.1 then Err(LengthExceedsInput)
    else a
  }

  /** What the reader compares a key by, if it takes the value for a key at all. */
  function KeyOf(v: Value): Option<Key> {
    match v
    case Text(s) => Some(TextKey(StripBom(s)))
    case Int(n) => if -MAX_SAFE_INTEGER - 1 <= n <= MAX_SAFE_INTEGER then Some(IntKey(n)) else None
    case _ => None
  }

  /** Termination, bounds and "items never exceed bytes" are in the contract. */
  function ParseValue(buf: seq<Byte>, pos: nat, items: nat, depth: int, lim: Limits): (r: Parsed<Value, Error>)
    requires pos <= |buf|
    ensures r.Done? ==> pos < r.pos <= |buf| && items < r.used && r.used - items <= r.pos - pos
    decreases |buf| - pos, 0, 0
  {
    if depth > lim.maxDepth then Failed(TooDeep)
    else if items + 1 > lim.maxItems then Failed(TooManyItems)
    else if pos >= |buf| then Failed(UnexpectedEnd)
    else ParseBody(buf, pos + 1, items + 1, depth, lim, buf[pos] / 32, buf[pos] % 32)
  }

  function ParseBody(buf: seq<Byte>, pos: nat, items: nat, depth: int, lim: Limits, major: int,
      ai: int): (r: Parsed<Value, Error>)
    requires pos <= |buf| && 0 <= major < 8 && 0 <= ai < 32
    ensures r.Done? ==> pos <= r.pos <= |buf| && items <= r.used && r.used - items <= r.pos - pos
    decreases |buf| - pos, 2, 0
  {
    if major <= 1 then
      var a := ParseArgument(buf, pos, ai);
      if a.Err? then Failed(a.error)
      else Done(Int(if major == 0 then a.value.0 else -1 - a.value.0), a.value.1, items)
    else if major <= 5 then
      var c := ParseCount(buf, pos, ai);
      if c.Err? then Failed(c.error)
      else
        var (n, p) := c.value;
        if major == 2 then Done(Bytes(buf[p..p + n]), p + n, items)
        else if major == 3 then
          if ValidUtf8(buf[p..p + n]) then Done(Text(buf[p..p + n]), p + n, items) else Failed(InvalidUtf8)
        else if major == 4 then
          var vs := ParseItems(buf, p, items, depth + 1, lim, n);
          if vs.Failed? then Failed(vs.error) else Done(Array(vs.value), vs.pos, vs.used)
        else
          var ps := ParseMembers(buf, p, items, depth + 1, lim, n, {});
          if ps.Failed? then Failed(ps.error) else Done(Map(ps.value), ps.pos, ps.used)
    else if major == 6 then Failed(Tagged)
    else if 20 <= ai <= 23 then Done(Simple(ai), pos, items)
    else Failed(UnsupportedSimple)
  }

  function ParseItems(buf: seq<Byte>, pos: nat, items: nat, depth: int, lim: Limits,
      n: nat): (r: Parsed<seq<Value>, Error>)
    requires pos <= |buf|
    ensures r.Done? ==> pos <= r.pos <= |buf| && items <= r.used && r.used - items <= r.pos - pos
    decreases |buf| - pos, 1, n
  {
    if n == 0 then Done([], pos, items)
    else
      var v := ParseValue(buf, pos, items, depth, lim);
      if v.Failed? then Failed(v.error)
      else
        var rest := ParseItems(buf, v.pos, v.used, depth, lim, n - 1);
        if rest.Failed? then rest else Done([v.value] + rest.value, rest.pos, rest.used)
  }

  function ParseMembers(buf: seq<Byte>, pos: nat, items: nat, depth: int, lim: Limits, n: nat, seen: set<Key>)
    : (r: Parsed<seq<Value>, Error>)
    requires pos <= |buf|
    ensures r.Done? ==> pos <= r.pos <= |buf| && items <= r.used && r.used - items <= r.pos - pos
    decreases |buf| - pos, 1, n
  {
    if n == 0 then Done([], pos, items)
    else
      var k := ParseValue(buf, pos, items, depth, lim);
      if k.Failed? then Failed(k.error)
      else if KeyOf(k.value).None? then Failed(BadKey)
      else if KeyOf(k.value).value in seen then Failed(DuplicateKey)
      else
        var v := ParseValue(buf, k.pos, k.used, depth, lim);
        if v.Failed? then Failed(v.error)
        else
          var rest := ParseMembers(buf, v.pos, v.used, depth, lim, n - 1, seen + {KeyOf(k.value).value});
          if rest.Failed? then rest else Done([k.value, v.value] + rest.value, rest.pos, rest.used)
  }

  function Decode(input: seq<Byte>, lim: Limits): Result<Value, Error> {
    if |input| > lim.maxBytes then Err(InputTooLarge)
    else
      var r := ParseValue(input, 0, 0, 0, lim);
      if r.Failed? then Err(r.error)
      else if r.pos != |input| then Err(TrailingBytes)
      else Ok(r.value)
  }

  // ------------------------------------------------------------- heads

  /** The minimality test admits exactly the arguments whose shortest form has this additional information. */
  lemma InfoExact(arg: nat, ai: int)
    requires 24 <= ai <= 27
    ensures (if ai == 24 then 24 else Radix.Pow(256, InfoWidth(ai) / 2)) <= arg < Radix.Pow(256, InfoWidth(ai))
       <==> arg < 0x1_0000_0000_0000_0000 && Info(arg) == ai
  {
    assert Radix.Pow(256, 1) == 0x100 && Radix.Pow(256, 2) == 0x1_0000;
    assert Radix.Pow(256, 4) == 0x1_0000_0000 && Radix.Pow(256, 8) == 0x1_0000_0000_0000_0000;
  }

  lemma ArgumentSound(buf: seq<Byte>, pos: nat, major: int, ai: int)
    requires pos < |buf| && 0 <= major < 8 && 0 <= ai < 32 && buf[pos] == major * 32 + ai
    requires ParseArgument(buf, pos + 1, ai).Ok?
    ensures var (arg, next) := ParseArgument(buf, pos + 1, ai).value;
            arg < 0x1_0000_0000_0000_0000 && At(buf, pos, Head(major, arg)) && next == pos + |Head(major, arg)|
  {
    hide Radix.Value, Radix.Fixed, Radix.Pow, FixedOctets;
    var (arg, next) := ParseArgument(buf, pos + 1, ai).value;
    var width := InfoWidth(ai);
    var raw := buf[pos + 1..pos + 1 + width];
    if ai >= 24 {
      Radix.ValueBelow(256, raw);
      Radix.FixedOfValue(256, raw);
      InfoExact(arg, ai);
    }
    assert FixedOctets(arg, width) == raw;
    assert buf[pos..pos + 1 + width] == [buf[pos]] + raw;
  }

  lemma ArgumentComplete(buf: seq<Byte>, pos: nat, major: int, arg: nat)
    requires 0 <= major < 8 && arg < 0x1_0000_0000_0000_0000 && At(buf, pos, Head(major, arg))
    ensures pos < |buf| && buf[pos] / 32 == major
    ensures ParseArgument(buf, pos + 1, buf[pos] % 32) == Ok((arg, pos + |Head(major, arg)|))
  {
    hide Radix.Value, Radix.Fixed, Radix.Pow, FixedOctets;
    var h, ai := Head(major, arg), Info(arg);
    var width := InfoWidth(ai);
    assert buf[pos] == h[0] == major * 32 + ai by { assert buf[pos..pos + |h|][0] == buf[pos]; }
    if arg >= 24 {
      assert buf[pos + 1..pos + 1 + width] == buf[pos..pos + |h|][1..] == h[1..] == FixedOctets(arg, width);
      InfoExact(arg, ai);
      Radix.ValueOfFixed(256, arg, width);
    }
  }

  // ------------------------------------------------------------- soundness

  /** `r` read exactly the canonical encoding of its value, and charged exactly its items. */
  ghost predicate SoundValue(buf: seq<Byte>, pos: nat, items: nat, depth: int, lim: Limits, r: Parsed<Value, Error>) {
    r.Done? ==>
      && WellFormed(r.value) && At(buf, pos, Encode(r.value)) && r.pos == pos + |Encode(r.value)|
      && r.used == items + Count(r.value) <= lim.maxItems && NestsWithin(r.value, lim.maxDepth - depth)
  }

  ghost predicate SoundAll(buf: seq<Byte>, pos: nat, items: nat, depth: int, lim: Limits,
      r: Parsed<seq<Value>, Error>) {
    r.Done? ==>
      && AllWellFormed(r.value) && At(buf, pos, EncodeAll(r.value)) && r.pos == pos + |EncodeAll(r.value)|
      && r.used == items + CountAll(r.value) <= lim.maxItems && AllNestWithin(r.value, lim.maxDepth - depth)
  }

  lemma {:induction false} ValueSound(buf: seq<Byte>, pos: nat, items: nat, depth: int, lim: Limits)
    requires pos <= |buf|
    ensures SoundValue(buf, pos, items, depth, lim, ParseValue(buf, pos, items, depth, lim))
    decreases |buf| - pos, 0, 0
  {
    hide ParseItems, ParseMembers, EncodeAll, ParseArgument, At, Head, ValidUtf8, DistinctKeys, KeysDiffer, Avoids;
    var r := ParseValue(buf, pos, items, depth, lim);
    if r.Done? {
      var major, ai := buf[pos] / 32, buf[pos] % 32;
      assert r == ParseBody(buf, pos + 1, items + 1, depth, lim, major, ai);
      if 4 <= major <= 5 {
        var (n, p) := ParseCount(buf, pos + 1, ai).value;
        if major == 4 {
          ItemsSound(buf, p, items + 1, depth + 1, lim, n);
        } else {
          MembersSound(buf, p, items + 1, depth + 1, lim, n, {});
          KeyRules(r.value.members);
        }
        ContainerSound(buf, pos, major, ai, r.value);
      } else {
        LeafSound(buf, pos, items + 1, depth, lim, major, ai);
      }
    }
  }

  lemma LeafSound(buf: seq<Byte>, pos: nat, items: nat, depth: int, lim: Limits, major: int, ai: int)
    requires pos < |buf| && 0 <= ai < 32 && buf[pos] == major * 32 + ai && major in {0, 1, 2, 3, 6, 7}
    requires ParseBody(buf, pos + 1, items, depth, lim, major, ai).Done?
    ensures var r := ParseBody(buf, pos + 1, items, depth, lim, major, ai);
            && !r.value.Array? && !r.value.Map? && WellFormed(r.value)
            && At(buf, pos, Encode(r.value)) && r.pos == pos + |Encode(r.value)| && r.used == items
  {
    hide ParseItems, ParseMembers, EncodeAll, ParseArgument, ValidUtf8, Head;
    var r := ParseBody(buf, pos + 1, items, depth, lim, major, ai);
    if major <= 3 {
      var (n, p) := ParseArgument(buf, pos + 1, ai).value;
      ArgumentSound(buf, pos, major, ai);
      if major >= 2 { AtConcat(buf, pos, Head(major, n), buf[p..p + n]); }
    } else {
      assert buf[pos..pos + 1] == Encode(r.value);
    }
  }

  /** A container's head followed by its members is the container's encoding. */
  lemma ContainerSound(buf: seq<Byte>, pos: nat, major: int, ai: int, v: Value)
    requires pos < |buf| && 0 <= ai < 32 && buf[pos] == major * 32 + ai && WellFormed(v)
    requires (major == 4 && v.Array?) || (major == 5 && v.Map?)
    requires var n := if v.Array? then |v.items| else |v.members| / 2;
             ParseCount(buf, pos + 1, ai).Ok? && ParseCount(buf, pos + 1, ai).value.0 == n
    requires At(buf, ParseCount(buf, pos + 1, ai).value.1, EncodeAll(if v.Array? then v.items else v.members))
    ensures At(buf, pos, Encode(v))
    ensures pos + |Encode(v)|
         == ParseCount(buf, pos + 1, ai).value.1 + |EncodeAll(if v.Array? then v.items else v.members)|
  {
    hide EncodeAll, Head, At;
    var (n, p) := ParseCount(buf, pos + 1, ai).value;
    assert ParseArgument(buf, pos + 1, ai) == Ok((n, p));
    ArgumentSound(buf, pos, major, ai);
    AtConcat(buf, pos, Head(major, n), EncodeAll(if v.Array? then v.items else v.members));
  }

  lemma {:induction false} ItemsSound(buf: seq<Byte>, pos: nat, items: nat, depth: int, lim: Limits, n: nat)
    requires pos <= |buf| && items <= lim.maxItems
    ensures var r := ParseItems(buf, pos, items, depth, lim, n);
            SoundAll(buf, pos, items, depth, lim, r) && (r.Done? ==> |r.value| == n)
    decreases |buf| - pos, 1, n
  {
    var r := ParseItems(buf, pos, items, depth, lim, n);
    if n > 0 && r.Done? {
      var v := ParseValue(buf, pos, items, depth, lim);
      ValueSound(buf, pos, items, depth, lim);
      ItemsSound(buf, v.pos, v.used, depth, lim, n - 1);
      SoundCons(buf, pos, items, depth, lim, v, ParseItems(buf, v.pos, v.used, depth, lim, n - 1));
    }
  }

  lemma SoundCons(buf: seq<Byte>, pos: nat, items: nat, depth: int, lim: Limits, v: Parsed<Value, Error>,
      rest: Parsed<seq<Value>, Error>)
    requires v.Done? && rest.Done?
    requires SoundValue(buf, pos, items, depth, lim, v) && SoundAll(buf, v.pos, v.used, depth, lim, rest)
    ensures SoundAll(buf, pos, items, depth, lim, Done([v.value] + rest.value, rest.pos, rest.used))
  {
    var vs := [v.value] + rest.value;
    assert vs[1..] == rest.value;
    AtConcat(buf, pos, Encode(v.value), EncodeAll(rest.value));
  }

  /** What the map loop lets through: every key is one, and none is repeated. */
  predicate KeysDiffer(members: seq<Value>) {
    && (forall i :: 0 <= i < |members| && i % 2 == 0 ==> KeyOf(members[i]).Some?)
    && (forall i, j :: 0 <= i < j < |members| && i % 2 == 0 && j % 2 == 0 ==> KeyOf(members[i]) != KeyOf(members[j]))
  }

  lemma KeyRule(v: Value, w: Value)
    ensures KeyOf(v).Some? <==> IsKey(v)
    ensures IsKey(v) && IsKey(w) ==> (KeyOf(v) == KeyOf(w) <==> SameKey(v, w))
  {
  }

  /** The loop's test of its keys is the one the specification asks for. */
  lemma KeyRules(members: seq<Value>)
    ensures KeysDiffer(members) <==> DistinctKeys(members)
  {
    hide KeyOf, IsKey, SameKey;
    forall i, j | 0 <= i < |members| && 0 <= j < |members|
      ensures KeyOf(members[i]).Some? <==> IsKey(members[i])
      ensures IsKey(members[i]) && IsKey(members[j]) ==>
          (KeyOf(members[i]) == KeyOf(members[j]) <==> SameKey(members[i], members[j]))
    {
      KeyRule(members[i], members[j]);
    }
  }

  /** The keys of a member list avoid `seen`. */
  predicate Avoids(members: seq<Value>, seen: set<Key>) {
    forall i :: 0 <= i < |members| && i % 2 == 0 && KeyOf(members[i]).Some? ==> KeyOf(members[i]).value !in seen
  }

  /** Distinctness of a member list, one member at a time. */
  lemma DistinctCons(k: Value, v: Value, rest: seq<Value>, seen: set<Key>)
    requires KeyOf(k).Some?
    ensures KeysDiffer([k, v] + rest) && Avoids([k, v] + rest, seen)
       <==> KeyOf(k).value !in seen && KeysDiffer(rest) && Avoids(rest, seen + {KeyOf(k).value})
  {
    hide KeyOf;
    var ms := [k, v] + rest;
    if KeysDiffer(ms) && Avoids(ms, seen) {
      assert ms[0] == k;
      forall i | 0 <= i < |rest| && i % 2 == 0
        ensures KeyOf(rest[i]).Some? && KeyOf(rest[i]).value !in seen + {KeyOf(k).value}
      {
        assert rest[i] == ms[i + 2] && KeyOf(ms[0]) != KeyOf(ms[i + 2]);
      }
      forall i, j | 0 <= i < j < |rest| && i % 2 == 0 && j % 2 == 0 ensures KeyOf(rest[i]) != KeyOf(rest[j]) {
        assert rest[i] == ms[i + 2] && rest[j] == ms[j + 2];
      }
    }
  }

  lemma DistinctUncons(ms: seq<Value>, seen: set<Key>)
    requires |ms| >= 2 && KeysDiffer(ms) && Avoids(ms, seen)
    ensures KeyOf(ms[0]).Some? && KeyOf(ms[0]).value !in seen
    ensures KeysDiffer(ms[2..]) && Avoids(ms[2..], seen + {KeyOf(ms[0]).value})
  {
    assert ms == [ms[0], ms[1]] + ms[2..];
    DistinctCons(ms[0], ms[1], ms[2..], seen);
  }

  lemma {:induction false} MembersSound(buf: seq<Byte>, pos: nat, items: nat, depth: int, lim: Limits, n: nat,
      seen: set<Key>)
    requires pos <= |buf| && items <= lim.maxItems
    ensures var r := ParseMembers(buf, pos, items, depth, lim, n, seen);
            && SoundAll(buf, pos, items, depth, lim, r)
            && (r.Done? ==> |r.value| == 2 * n && KeysDiffer(r.value) && Avoids(r.value, seen))
    decreases |buf| - pos, 1, n
  {
    hide ParseValue, KeyOf;
    var r := ParseMembers(buf, pos, items, depth, lim, n, seen);
    if n > 0 && r.Done? {
      var k := ParseValue(buf, pos, items, depth, lim);
      ValueSound(buf, pos, items, depth, lim);
      var v := ParseValue(buf, k.pos, k.used, depth, lim);
      ValueSound(buf, k.pos, k.used, depth, lim);
      var seen' := seen + {KeyOf(k.value).value};
      MembersSound(buf, v.pos, v.used, depth, lim, n - 1, seen');
      var rest := ParseMembers(buf, v.pos, v.used, depth, lim, n - 1, seen');
      DistinctCons(k.value, v.value, rest.value, seen);
      SoundCons(buf, k.pos, k.used, depth, lim, v, rest);
      SoundCons(buf, pos, items, depth, lim, k, Done([v.value] + rest.value, rest.pos, rest.used));
      assert [k.value] + ([v.value] + rest.value) == r.value;
    }
  }

  // ---------------------------------------------------------- completeness

  lemma {:induction false} ValueComplete(v: Value, buf: seq<Byte>, pos: nat, items: nat, depth: int, lim: Limits)
    requires WellFormed(v) && At(buf, pos, Encode(v))
    requires NestsWithin(v, lim.maxDepth - depth) && items + Count(v) <= lim.maxItems
    ensures ParseValue(buf, pos, items, depth, lim) == Done(v, pos + |Encode(v)|, items + Count(v))
    decreases v, 1
  {
    hide ParseItems, ParseMembers, EncodeAll, ParseArgument, ParseCount, Head, DistinctKeys, KeysDiffer;
    if v.Array? {
      var n, body := |v.items|, EncodeAll(v.items);
      CountComplete(buf, pos, 4, n, body);
      ItemsComplete(v.items, buf, pos + |Head(4, n)|, items + 1, depth + 1, lim);
    } else if v.Map? {
      var n, body := |v.members| / 2, EncodeAll(v.members);
      CountComplete(buf, pos, 5, n, body);
      KeyRules(v.members);
      MembersComplete(v.members, n, buf, pos + |Head(5, n)|, items + 1, depth + 1, lim, {});
    } else {
      LeafComplete(v, buf, pos, items + 1, depth, lim);
    }
    hide At, Encode, WellFormed;
    assert ParseValue(buf, pos, items, depth, lim)
        == ParseBody(buf, pos + 1, items + 1, depth, lim, buf[pos] / 32, buf[pos] % 32);
  }

  lemma LeafComplete(v: Value, buf: seq<Byte>, pos: nat, items: nat, depth: int, lim: Limits)
    requires !v.Array? && !v.Map? && WellFormed(v) && At(buf, pos, Encode(v))
    ensures pos < |buf|
    ensures ParseBody(buf, pos + 1, items, depth, lim, buf[pos] / 32, buf[pos] % 32)
         == Done(v, pos + |Encode(v)|, items)
  {
    hide ParseItems, ParseMembers, EncodeAll, ParseArgument, ParseCount, Head, ValidUtf8;
    match v
    case Int(n) =>
      ArgumentComplete(buf, pos, if n >= 0 then 0 else 1, if n >= 0 then n else -1 - n);
    case Bytes(s) =>
      CountComplete(buf, pos, 2, |s|, s);
    case Text(s) =>
      CountComplete(buf, pos, 3, |s|, s);
    case Simple(ai) =>
      assert buf[pos] == buf[pos..pos + 1][0] == 7 * 32 + ai;
  }

  /** A count in front of at least that many bytes of content is read back. */
  lemma CountComplete(buf: seq<Byte>, pos: nat, major: int, n: nat, body: seq<Byte>)
    requires 0 <= major < 8 && Countable(n) && n <= |body| && At(buf, pos, Head(major, n) + body)
    ensures pos < |buf| && buf[pos] / 32 == major && At(buf, pos + |Head(major, n)|, body)
    ensures ParseCount(buf, pos + 1, buf[pos] % 32) == Ok((n, pos + |Head(major, n)|))
  {
    AtConcat(buf, pos, Head(major, n), body);
    ArgumentComplete(buf, pos, major, n);
  }

  lemma {:induction false} ItemsComplete(vs: seq<Value>, buf: seq<Byte>, pos: nat, items: nat, depth: int, lim: Limits)
    requires AllWellFormed(vs) && AllNestWithin(vs, lim.maxDepth - depth)
    requires At(buf, pos, EncodeAll(vs)) && items + CountAll(vs) <= lim.maxItems
    ensures ParseItems(buf, pos, items, depth, lim, |vs|) == Done(vs, pos + |EncodeAll(vs)|, items + CountAll(vs))
    decreases vs, 0
  {
    hide ParseValue, Encode;
    if vs != [] {
      AtConcat(buf, pos, Encode(vs[0]), EncodeAll(vs[1..]));
      ValueComplete(vs[0], buf, pos, items, depth, lim);
      ItemsComplete(vs[1..], buf, pos + |Encode(vs[0])|, items + Count(vs[0]), depth, lim);
      assert [vs[0]] + vs[1..] == vs;
    }
  }

  lemma {:induction false} MembersComplete(
    ms: seq<Value>, n: nat, buf: seq<Byte>, pos: nat, items: nat, depth: int, lim: Limits, seen: set<Key>)
    requires |ms| == 2 * n && KeysDiffer(ms) && Avoids(ms, seen)
    requires AllWellFormed(ms) && AllNestWithin(ms, lim.maxDepth - depth)
    requires At(buf, pos, EncodeAll(ms)) && items + CountAll(ms) <= lim.maxItems
    ensures ParseMembers(buf, pos, items, depth, lim, n, seen) == Done(ms, pos + |EncodeAll(ms)|, items + CountAll(ms))
    decreases ms, 0
  {
    hide ParseValue, ParseMembers, Encode, WellFormed, KeysDiffer, Avoids, KeyOf, NestsWithin, Count;
    if n == 0 {
      MembersUnfold(buf, pos, items, depth, lim, n, seen);
    } else {
      var k, v, rest := ms[0], ms[1], ms[2..];
      FirstMember(ms, lim.maxDepth - depth);
      hide EncodeAll, CountAll, AllWellFormed, AllNestWithin, At;
      var kPos := pos + |Encode(k)|;
      AtConcat(buf, pos, Encode(k), Encode(v) + EncodeAll(rest));
      AtConcat(buf, kPos, Encode(v), EncodeAll(rest));
      DistinctUncons(ms, seen);
      ValueComplete(k, buf, pos, items, depth, lim);
      ValueComplete(v, buf, kPos, items + Count(k), depth, lim);
      MembersComplete(rest, n - 1, buf, kPos + |Encode(v)|, items + Count(k) + Count(v), depth, lim,
        seen + {KeyOf(k).value});
      MembersUnfold(buf, pos, items, depth, lim, n, seen);
      assert ms == [k, v] + rest;
    }
  }

  lemma MembersUnfold(buf: seq<Byte>, pos: nat, items: nat, depth: int, lim: Limits, n: nat, seen: set<Key>)
    requires pos <= |buf|
    ensures n == 0 ==> ParseMembers(buf, pos, items, depth, lim, n, seen) == Done([], pos, items)
    ensures
      var k := ParseValue(buf, pos, items, depth, lim);
      n > 0 && k.Done? && KeyOf(k.value).Some? && KeyOf(k.value).value !in seen ==>
        (var v := ParseValue(buf, k.pos, k.used, depth, lim);
         v.Done? ==>
           (var tail := ParseMembers(buf, v.pos, v.used, depth, lim, n - 1, seen + {KeyOf(k.value).value});
            tail.Done? ==>
              ParseMembers(buf, pos, items, depth, lim, n, seen)
              == Done([k.value, v.value] + tail.value, tail.pos, tail.used)))
  {
    hide ParseValue, KeyOf;
  }

  lemma FirstMember(ms: seq<Value>, levels: int)
    requires |ms| >= 2 && AllWellFormed(ms) && AllNestWithin(ms, levels)
    ensures WellFormed(ms[0]) && WellFormed(ms[1]) && AllWellFormed(ms[2..])
    ensures NestsWithin(ms[0], levels) && NestsWithin(ms[1], levels) && AllNestWithin(ms[2..], levels)
    ensures EncodeAll(ms) == Encode(ms[0]) + (Encode(ms[1]) + EncodeAll(ms[2..]))
    ensures CountAll(ms) == Count(ms[0]) + Count(ms[1]) + CountAll(ms[2..])
  {
    assert ms[1..][0] == ms[1] && ms[1..][1..] == ms[2..];
  }

  // ---------------------------------------------------------- main theorems

  /** Exact inverse: the decoder returns `v` exactly when the input is the canonical encoding of `v` within limits. */
  lemma DecodeExact(input: seq<Byte>, lim: Limits, v: Value)
    ensures Decode(input, lim) == Ok(v) <==> Encodes(input, v, lim)
  {
    if Decode(input, lim) == Ok(v) {
      ValueSound(input, 0, 0, 0, lim);
      assert input[0..|input|] == input;
    }
    if Encodes(input, v, lim) {
      assert input[0..|input|] == input;
      ValueComplete(v, input, 0, 0, 0, lim);
    }
  }

  /** An acceptable value ends at offset `k`. */
  ghost predicate PrefixEncodes(input: seq<Byte>, k: nat, v: Value, lim: Limits) {
    && k <= |input| && WellFormed(v) && input[..k] == Encode(v)
    && NestsWithin(v, lim.maxDepth) && Count(v) <= lim.maxItems
  }

  /** Two refusals say exactly this: the input is too long, or a whole value is followed by more. */
  lemma RefusalsSay(input: seq<Byte>, lim: Limits)
    ensures Decode(input, lim) == Err(InputTooLarge) <==> |input| > lim.maxBytes
    ensures Decode(input, lim) == Err(TrailingBytes) <==>
            |input| <= lim.maxBytes && exists k: nat, v :: k < |input| && PrefixEncodes(input, k, v, lim)
  {
    hide ParseValue, WellFormed, Encode;
    var r := ParseValue(input, 0, 0, 0, lim);
    OwnErrors(input, 0, 0, 0, lim);
    ValueSound(input, 0, 0, 0, lim);
    if r.Done? {
      assert input[0..r.pos] == input[..r.pos];
      assert PrefixEncodes(input, r.pos, r.value, lim);
    }
    forall k: nat, v | PrefixEncodes(input, k, v, lim) ensures r == Done(v, k, Count(v)) {
      assert input[0..k] == input[..k];
      ValueComplete(v, input, 0, 0, 0, lim);
    }
  }

  /** The reader itself never gives those two. */
  lemma {:induction false} OwnErrors(buf: seq<Byte>, pos: nat, items: nat, depth: int, lim: Limits)
    requires pos <= |buf|
    ensures var r := ParseValue(buf, pos, items, depth, lim);
      r.Failed? ==> !r.error.InputTooLarge? && !r.error.TrailingBytes?
    decreases |buf| - pos, 0, 0
  {
    hide ParseItems, ParseMembers, ValidUtf8;
    var r := ParseValue(buf, pos, items, depth, lim);
    if depth <= lim.maxDepth && items + 1 <= lim.maxItems && pos < |buf| {
      var major, ai := buf[pos] / 32, buf[pos] % 32;
      var c := ParseCount(buf, pos + 1, ai);
      if c.Ok? && major == 4 { OwnItemErrors(buf, c.value.1, items + 1, depth + 1, lim, c.value.0); }
      if c.Ok? && major == 5 { OwnMemberErrors(buf, c.value.1, items + 1, depth + 1, lim, c.value.0, {}); }
    }
  }

  lemma {:induction false} OwnItemErrors(buf: seq<Byte>, pos: nat, items: nat, depth: int, lim: Limits, n: nat)
    requires pos <= |buf|
    ensures var r := ParseItems(buf, pos, items, depth, lim, n);
      r.Failed? ==> !r.error.InputTooLarge? && !r.error.TrailingBytes?
    decreases |buf| - pos, 1, n
  {
    hide ParseValue;
    if n > 0 {
      OwnErrors(buf, pos, items, depth, lim);
      var v := ParseValue(buf, pos, items, depth, lim);
      if v.Done? { OwnItemErrors(buf, v.pos, v.used, depth, lim, n - 1); }
    }
  }

  lemma {:induction false} OwnMemberErrors(buf: seq<Byte>, pos: nat, items: nat, depth: int, lim: Limits, n: nat,
      seen: set<Key>)
    requires pos <= |buf|
    ensures var r := ParseMembers(buf, pos, items, depth, lim, n, seen);
      r.Failed? ==> !r.error.InputTooLarge? && !r.error.TrailingBytes?
    decreases |buf| - pos, 1, n
  {
    hide ParseValue, KeyOf;
    if n > 0 {
      OwnErrors(buf, pos, items, depth, lim);
      var k := ParseValue(buf, pos, items, depth, lim);
      if k.Done? && KeyOf(k.value).Some? {
        OwnErrors(buf, k.pos, k.used, depth, lim);
        var v := ParseValue(buf, k.pos, k.used, depth, lim);
        if v.Done? { OwnMemberErrors(buf, v.pos, v.used, depth, lim, n - 1, seen + {KeyOf(k.value).value}); }
      }
    }
  }

  lemma {:induction false} NestingBelowCount(v: Value, levels: int)
    requires Count(v) <= levels + 1
    ensures NestsWithin(v, levels)
    decreases v, 1
  {
    if v.Array? { AllNestingBelowCount(v.items, levels - 1); }
    if v.Map? { AllNestingBelowCount(v.members, levels - 1); }
  }

  lemma {:induction false} AllNestingBelowCount(vs: seq<Value>, levels: int)
    requires CountAll(vs) <= levels + 1
    ensures AllNestWithin(vs, levels)
    decreases vs, 0
  {
    if vs != [] {
      NestingBelowCount(vs[0], levels);
      AllNestingBelowCount(vs[1..], levels);
    }
  }

  /** Encodings are prefix-free: no canonical encoding is a proper prefix of another. */
  lemma EncodePrefixFree(v: Value, w: Value)
    requires WellFormed(v) && WellFormed(w) && Encode(v) <= Encode(w)
    ensures v == w
  {
    hide ParseValue, WellFormed;
    var lim := Limits(Count(v) + Count(w), Count(v) + Count(w), 0);
    NestingBelowCount(v, lim.maxDepth);
    NestingBelowCount(w, lim.maxDepth);
    var buf := Encode(w);
    assert At(buf, 0, Encode(v)) && At(buf, 0, Encode(w));
    ValueComplete(v, buf, 0, 0, 0, lim);
    ValueComplete(w, buf, 0, 0, 0, lim);
  }

  // ------------------------------------------------------------- the reader

  class CborReader {
    const buf: seq<Byte>
    const limits: Limits
    var pos: nat
    var items: nat

    constructor (buf: seq<Byte>, limits: Limits)
      ensures this.buf == buf && this.limits == limits && pos == 0 && items == 0
    {
      this.buf, this.limits, pos, items := buf, limits, 0, 0;
    }

    /** Reads a big-endian argument byte by byte, then checks it could not have been shorter. */
    method Argument(ai: int) returns (r: Result<nat, Error>)
      requires pos <= |buf| && 0 <= ai < 32
      modifies this`pos
      ensures var spec := ParseArgument(buf, old(pos), ai);
              match r case Ok(n) => spec == Ok((n, pos)) case Err(e) => spec == Err(e) && pos <= |buf|
    {
      if ai < 24 { return Ok(ai); }
      if ai == 31 { return Err(IndefiniteLength); }
      if ai > 27 { return Err(ReservedInfo); }
      var width := InfoWidth(ai);
      if width > |buf| - pos { return Err(LengthExceedsInput); }
      var raw := buf[pos..pos + width];
      pos := pos + width;
      var big := 0;
      for i := 0 to |raw|
        invariant big == Radix.Value(256, raw[..i])
      {
        big := big * 256 + raw[i];
        assert raw[..i + 1][..i] == raw[..i];
      }
      assert raw[..|raw|] == raw;
      var minimum := if ai == 24 then 24 else Radix.Pow(256, width / 2);
      if big < minimum { return Err(NonCanonical); }
      return Ok(big);
    }

    method CountArgument(ai: int) returns (r: Result<nat, Error>)
      requires pos <= |buf| && 0 <= ai < 32
      modifies this`pos
      ensures var spec := ParseCount(buf, old(pos), ai);
              match r case Ok(n) => spec == Ok((n, pos)) case Err(e) => spec == Err(e) && pos <= |buf|
    {
      r := Argument(ai);
      if r.Err? { return; }
      if r.value > MAX_SAFE_INTEGER { return Err(Absurd); }
      if r.value > |buf| - pos { return Err(LengthExceedsInput); }
    }

    ghost predicate Refines<T>(r: Result<T, Error>, spec: Parsed<T, Error>)
      reads this
    {
      match r case Ok(v) => spec == Done(v, pos, items) case Err(e) => spec == Failed(e) && pos <= |buf|
    }

    method ReadValue(depth: int) returns (r: Result<Value, Error>)
      requires pos <= |buf|
      modifies this
      ensures Refines(r, ParseValue(buf, old(pos), old(items), depth, limits))
      decreases |buf| - pos, 0
    {
      if depth > limits.maxDepth { return Err(TooDeep); }
      items := items + 1;
      if items > limits.maxItems { return Err(TooManyItems); }
      if pos >= |buf| { return Err(UnexpectedEnd); }
      var head := buf[pos];
      pos := pos + 1;
      var major, ai := head / 32, head % 32;
      if major <= 1 {
        var a := Argument(ai);
        if a.Err? { return Err(a.error); }
        var n: int := a.value;
        return Ok(Int(if major == 0 then n else -1 - n));
      } else if major <= 3 {
        var n := CountArgument(ai);
        if n.Err? { return Err(n.error); }
        var raw := buf[pos..pos + n.value];
        pos := pos + n.value;
        if major == 2 { return Ok(Bytes(raw)); }
        if !ValidUtf8(raw) { return Err(InvalidUtf8); }
        return Ok(Text(raw));
      } else if major == 4 {
        var n := CountArgument(ai);
        if n.Err? { return Err(n.error); }
        var vs := ReadItems(depth, n.value);
        return if vs.Err? then Err(vs.error) else Ok(Array(vs.value));
      } else if major == 5 {
        var n := CountArgument(ai);
        if n.Err? { return Err(n.error); }
        var ps := ReadMembers(depth, n.value);
        return if ps.Err? then Err(ps.error) else Ok(Map(ps.value));
      } else if major == 6 {
        return Err(Tagged);
      } else if 20 <= ai <= 23 {
        return Ok(Simple(ai));
      }
      return Err(UnsupportedSimple);
    }

    /** The array loop: `n` values, pushed in order. */
    method ReadItems(depth: int, n: nat) returns (r: Result<seq<Value>, Error>)
      requires pos <= |buf|
      modifies this
      ensures Refines(r, ParseItems(buf, old(pos), old(items), depth + 1, limits, n))
      decreases |buf| - pos, 1
    {
      var out: seq<Value> := [];
      PrefixedNone(ParseItems(buf, pos, items, depth + 1, limits, n));
      for i := 0 to n
        invariant old(pos) <= pos <= |buf|
        invariant ParseItems(buf, old(pos), old(items), depth + 1, limits, n)
               == Prefixed(out, ParseItems(buf, pos, items, depth + 1, limits, n - i))
      {
        var v := ReadValue(depth + 1);
        if v.Err? { return Err(v.error); }
        PrefixedStep(out, [v.value], ParseItems(buf, pos, items, depth + 1, limits, n - i - 1));
        out := out + [v.value];
      }
      assert out + [] == out;
      return Ok(out);
    }

    /** The map loop: keys checked for type and repetition before their value is read. */
    method ReadMembers(depth: int, n: nat) returns (r: Result<seq<Value>, Error>)
      requires pos <= |buf|
      modifies this
      ensures Refines(r, ParseMembers(buf, old(pos), old(items), depth + 1, limits, n, {}))
      decreases |buf| - pos, 1
    {
      var out: seq<Value> := [];
      var seen: set<Key> := {};
      PrefixedNone(ParseMembers(buf, pos, items, depth + 1, limits, n, {}));
      for i := 0 to n
        invariant old(pos) <= pos <= |buf|
        invariant ParseMembers(buf, old(pos), old(items), depth + 1, limits, n, {})
               == Prefixed(out, ParseMembers(buf, pos, items, depth + 1, limits, n - i, seen))
      {
        var k := ReadValue(depth + 1);
        if k.Err? { return Err(k.error); }
        if KeyOf(k.value).None? { return Err(BadKey); }
        if KeyOf(k.value).value in seen { return Err(DuplicateKey); }
        var v := ReadValue(depth + 1);
        if v.Err? { return Err(v.error); }
        seen := seen + {KeyOf(k.value).value};
        PrefixedStep(out, [k.value, v.value], ParseMembers(buf, pos, items, depth + 1, limits, n - i - 1, seen));
        out := out + [k.value, v.value];
      }
      assert out + [] == out;
      return Ok(out);
    }
  }

  /** `decodeCbor`: accepts exactly the canonical encodings within limits. */
  method DecodeCbor(input: seq<Byte>, limits: Limits) returns (r: Result<Value, Error>)
    ensures forall v :: r == Ok(v) <==> Encodes(input, v, limits)
  {
    if |input| > limits.maxBytes {
      r := Err(InputTooLarge);
    } else {
      var reader := new CborReader(input, limits);
      r := reader.ReadValue(0);
      if r.Ok? && reader.pos != |input| { r := Err(TrailingBytes); }
    }
    assert r == Decode(input, limits);
    forall v ensures r == Ok(v) <==> Encodes(input, v, limits) { DecodeExact(input, limits, v); }
  }
}
