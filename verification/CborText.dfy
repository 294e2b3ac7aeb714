/**
 * What `TextDecoder` does to text items: it drops one leading byte order mark, so what the callers of
 * packages/attestation/src/cbor.ts see may not determine what was decoded. When it does is computed exactly.
 */
module CborText {
  import opened Common
  import opened Cbor

  // --------------------------------------------------------- the delivered value

  /** The value as callers see it: every text item with its leading byte order mark dropped. */
  function Delivered(v: Value): Value
    decreases v, 1
  {
    match v
    case Text(s) => Text(StripBom(s))
    case Array(vs) => Array(DeliveredAll(vs))
    case Map(ms) => Map(DeliveredAll(ms))
    case _ => v
  }

  function DeliveredAll(vs: seq<Value>): (r: seq<Value>)
    ensures |r| == |vs|
    decreases vs, 0
  {
    if vs == [] then [] else [Delivered(vs[0])] + DeliveredAll(vs[1..])
  }

  predicate NoBom(v: Value)
    decreases v, 1
  {
    match v
    case Text(s) => !StartsWithBom(s)
    case Array(vs) => NoBomIn(vs)
    case Map(ms) => NoBomIn(ms)
    case _ => true
  }

  predicate NoBomIn(vs: seq<Value>)
    decreases vs, 0
  {
    vs == [] || (NoBom(vs[0]) && NoBomIn(vs[1..]))
  }

  lemma {:induction false} DeliveredUnchanged(v: Value)
    ensures Delivered(v) == v <==> NoBom(v)
    decreases v, 1
  {
    match v
    case Array(vs) => DeliveredAllUnchanged(vs);
    case Map(ms) => DeliveredAllUnchanged(ms);
    case _ =>
  }

  lemma {:induction false} DeliveredAllUnchanged(vs: seq<Value>)
    ensures DeliveredAll(vs) == vs <==> NoBomIn(vs)
    decreases vs, 0
  {
    if vs != [] {
      DeliveredUnchanged(vs[0]);
      DeliveredAllUnchanged(vs[1..]);
      assert vs == [vs[0]] + vs[1..];
      assert DeliveredAll(vs)[0] == Delivered(vs[0]) && DeliveredAll(vs)[1..] == DeliveredAll(vs[1..]);
    }
  }

  /** The delivered value re-encodes to the accepted input exactly when no text item in it began with a BOM. */
  lemma DeliveredReencodes(input: seq<Byte>, lim: Limits, v: Value)
    requires Decode(input, lim) == Ok(v)
    ensures (WellFormed(Delivered(v)) && Encode(Delivered(v)) == input) <==> NoBom(v)
  {
    DecodeExact(input, lim, v);
    DeliveredUnchanged(v);
    if WellFormed(Delivered(v)) && Encode(Delivered(v)) == input {
      EncodePrefixFree(Delivered(v), v);
    }
  }

  /** The empty text item, and the same item with a byte order mark in it: two accepted inputs, one delivered value. */
  lemma BomCollision()
    ensures var lim := Limits(8, 1024, 131072);
            && Decode([0x60], lim) == Ok(Text([]))
            && Decode([0x63, 0xEF, 0xBB, 0xBF], lim) == Ok(Text([0xEF, 0xBB, 0xBF]))
            && Delivered(Text([0xEF, 0xBB, 0xBF])) == Delivered(Text([]))
  {
    var bom: seq<Byte> := [0xEF, 0xBB, 0xBF];
    assert ValidUtf8([]) && ValidUtf8(bom) && bom[3..] == [];
    hide ValidUtf8, Decode;
    assert [0x60] + [] == [0x60] && [0x63] + bom == [0x63, 0xEF, 0xBB, 0xBF];
    ShortTextDecodes([]);
    ShortTextDecodes(bom);
  }

  lemma ShortTextDecodes(s: seq<Byte>)
    requires |s| < 24 && ValidUtf8(s)
    ensures Decode([0x60 + |s|] + s, Limits(8, 1024, 131072)) == Ok(Text(s))
  {
    hide ValidUtf8, Decode;
    EncodeShortText(s);
    DecodeExact([0x60 + |s|] + s, Limits(8, 1024, 131072), Text(s));
  }

  lemma EncodeShortText(s: seq<Byte>)
    requires |s| < 24 && ValidUtf8(s)
    ensures WellFormed(Text(s)) && Encode(Text(s)) == [0x60 + |s|] + s
  {
    hide ValidUtf8;
    assert FixedOctets(|s|, 0) == [];
    assert Head(3, |s|) == [0x60 + |s|];
  }

  // ------------------------------------------------- which values share a delivery

  const BOM: seq<Byte> := [0xEF, 0xBB, 0xBF]

  /**
   * Another text item is delivered as this one is: the same text without its mark, unless that begins with a mark
   * again; or the same text with a mark, unless that is too long to count.
   */
  predicate TextHasTwin(s: seq<Byte>) {
    if StartsWithBom(s) then !StartsWithBom(s[3..]) else Countable(|s| + 3)
  }

  /** Some text item of the value has a twin. */
  predicate Ambiguous(v: Value)
    decreases v, 1
  {
    match v
    case Text(s) => TextHasTwin(s)
    case Array(vs) => AmbiguousIn(vs)
    case Map(ms) => AmbiguousIn(ms)
    case _ => false
  }

  predicate AmbiguousIn(vs: seq<Value>)
    decreases vs, 0
  {
    vs != [] && (Ambiguous(vs[0]) || AmbiguousIn(vs[1..]))
  }

  lemma MarkIsText(s: seq<Byte>)
    ensures StartsWithBom(BOM + s) && (BOM + s)[3..] == s && (ValidUtf8(BOM + s) <==> ValidUtf8(s))
    ensures StartsWithBom(s) ==> s == BOM + s[3..]
  {
    assert (BOM + s)[3..] == s;
  }

  /** The text items that are delivered alike. */
  lemma SameText(s: seq<Byte>, t: seq<Byte>)
    requires StripBom(t) == StripBom(s) && t != s
    ensures (StartsWithBom(s) && !StartsWithBom(s[3..]) && t == s[3..]) || (!StartsWithBom(s) && t == BOM + s)
  {
    MarkIsText(s);
    MarkIsText(t);
  }

  lemma TextTwin(s: seq<Byte>) returns (t: seq<Byte>)
    requires TextHasTwin(s) && WellFormed(Text(s))
    ensures t != s && StripBom(t) == StripBom(s) && WellFormed(Text(t))
  {
    hide ValidUtf8;
    if StartsWithBom(s) {
      t := s[3..];
      MarkIsText(s);
      MarkIsText(t);
    } else {
      t := BOM + s;
      MarkIsText(s);
      assert |t| == |s| + 3;
    }
  }

  /** Keys are told apart by what is delivered of them. */
  lemma KeyDelivered(v: Value, w: Value)
    ensures Delivered(v) == Delivered(w) ==> (IsKey(v) <==> IsKey(w))
    ensures IsKey(v) && IsKey(w) ==> (SameKey(v, w) <==> Delivered(v) == Delivered(w))
  {
  }

  lemma {:induction false} DeliveredAt(vs: seq<Value>, i: nat)
    requires i < |vs|
    ensures DeliveredAll(vs)[i] == Delivered(vs[i])
  {
    if i > 0 { DeliveredAt(vs[1..], i - 1); }
  }

  lemma KeysDelivered(vs: seq<Value>, ws: seq<Value>)
    requires DeliveredAll(vs) == DeliveredAll(ws) && DistinctKeys(vs)
    ensures DistinctKeys(ws)
  {
    hide IsKey, SameKey, Delivered;
    assert |vs| == |DeliveredAll(vs)| == |DeliveredAll(ws)| == |ws|;
    forall i | 0 <= i < |vs| ensures Delivered(vs[i]) == Delivered(ws[i]) && (IsKey(vs[i]) <==> IsKey(ws[i])) {
      DeliveredAt(vs, i);
      DeliveredAt(ws, i);
      KeyDelivered(vs[i], ws[i]);
    }
    forall i, j | 0 <= i < j < |ws| && i % 2 == 0 && j % 2 == 0 ensures !SameKey(ws[i], ws[j]) {
      assert IsKey(vs[i]) && IsKey(vs[j]) && !SameKey(vs[i], vs[j]);
      KeyDelivered(vs[i], vs[j]);
      KeyDelivered(ws[i], ws[j]);
    }
  }

  lemma {:induction false} TwinOf(v: Value) returns (w: Value)
    requires WellFormed(v) && Ambiguous(v)
    ensures WellFormed(w) && w != v && Delivered(w) == Delivered(v)
    decreases v, 1
  {
    hide DistinctKeys, TextHasTwin;
    match v
    case Text(s) =>
      var t := TextTwin(s);
      w := Text(t);
    case Array(vs) =>
      var ws := TwinIn(vs);
      w := Array(ws);
    case Map(ms) =>
      var ws := TwinIn(ms);
      KeysDelivered(ms, ws);
      w := Map(ws);
  }

  lemma {:induction false} TwinIn(vs: seq<Value>) returns (ws: seq<Value>)
    requires AllWellFormed(vs) && AmbiguousIn(vs)
    ensures AllWellFormed(ws) && ws != vs && |ws| == |vs| && DeliveredAll(ws) == DeliveredAll(vs)
    decreases vs, 0
  {
    hide WellFormed, Ambiguous, Delivered;
    if Ambiguous(vs[0]) {
      var w := TwinOf(vs[0]);
      ws := [w] + vs[1..];
      assert ws[0] != vs[0] && ws[1..] == vs[1..];
    } else {
      var rest := TwinIn(vs[1..]);
      ws := [vs[0]] + rest;
      assert ws[1..] == rest;
    }
  }

  lemma {:induction false} Unambiguous(v: Value, w: Value)
    requires !Ambiguous(v) && WellFormed(w) && Delivered(w) == Delivered(v)
    ensures w == v
    decreases v, 1
  {
    hide DistinctKeys;
    match v
    case Text(s) =>
      assert w.Text? && StripBom(w.utf8) == StripBom(s);
      if w.utf8 != s { SameText(s, w.utf8); }
    case Array(vs) =>
      assert w.Array? && DeliveredAll(w.items) == DeliveredAll(vs);
      UnambiguousIn(vs, w.items);
    case Map(ms) =>
      assert w.Map? && DeliveredAll(w.members) == DeliveredAll(ms);
      UnambiguousIn(ms, w.members);
    case _ =>
  }

  lemma {:induction false} UnambiguousIn(vs: seq<Value>, ws: seq<Value>)
    requires !AmbiguousIn(vs) && AllWellFormed(ws) && DeliveredAll(ws) == DeliveredAll(vs)
    ensures ws == vs
    decreases vs, 0
  {
    hide WellFormed, Ambiguous, Delivered;
    assert |vs| == |DeliveredAll(vs)| == |DeliveredAll(ws)| == |ws|;
    if vs != [] {
      assert DeliveredAll(vs)[0] == Delivered(vs[0]) && DeliveredAll(ws)[0] == Delivered(ws[0]);
      assert DeliveredAll(vs)[1..] == DeliveredAll(vs[1..]) && DeliveredAll(ws)[1..] == DeliveredAll(ws[1..]);
      Unambiguous(vs[0], ws[0]);
      UnambiguousIn(vs[1..], ws[1..]);
      assert vs == [vs[0]] + vs[1..] && ws == [ws[0]] + ws[1..];
    }
  }

  /** Another well-formed value is delivered as this one is. */
  ghost predicate SharesDelivery(v: Value) { exists w :: WellFormed(w) && w != v && Delivered(w) == Delivered(v) }

  /** The exact set: the delivered value leaves the decoded one open if and only if some text item has a twin. */
  lemma SharesDeliveryIff(v: Value)
    requires WellFormed(v)
    ensures SharesDelivery(v) <==> Ambiguous(v)
  {
    hide WellFormed, Ambiguous, Delivered;
    if Ambiguous(v) { var w := TwinOf(v); }
    if SharesDelivery(v) && !Ambiguous(v) {
      var w :| WellFormed(w) && w != v && Delivered(w) == Delivered(v);
      Unambiguous(v, w);
    }
  }

  /** Another input, under some limits, is accepted and delivers the same. */
  ghost predicate InputShares(input: seq<Byte>, v: Value) {
    exists other, lim, w :: other != input && Decode(other, lim) == Ok(w) && Delivered(w) == Delivered(v)
  }

  /** In terms of inputs: what an accepted input delivers is delivered by another input if and only if that is so. */
  lemma InputSharesIff(input: seq<Byte>, lim: Limits, v: Value)
    requires Decode(input, lim) == Ok(v)
    ensures InputShares(input, v) <==> Ambiguous(v)
  {
    hide Decode, WellFormed, Ambiguous, Delivered;
    DecodeExact(input, lim, v);
    SharesDeliveryIff(v);
    if SharesDelivery(v) {
      var w :| WellFormed(w) && w != v && Delivered(w) == Delivered(v);
      var lim' := DecodesUnder(w);
      DecodeExact(Encode(w), lim', w);
      if Encode(w) == input { EncodePrefixFree(w, v); }
    }
    if InputShares(input, v) {
      var other, lim', w :| other != input && Decode(other, lim') == Ok(w) && Delivered(w) == Delivered(v);
      DecodeExact(other, lim', w);
    }
  }

  lemma DecodesUnder(w: Value) returns (lim: Limits)
    requires WellFormed(w)
    ensures Decode(Encode(w), lim) == Ok(w)
  {
    hide WellFormed, Decode;
    lim := Limits(Count(w), Count(w), |Encode(w)|);
    NestingBelowCount(w, Count(w));
    DecodeExact(Encode(w), lim, w);
  }

  // ------------------------------------------------------- which bytes are text

  /** Unicode scalar values: code points that are not surrogates. */
  predicate IsScalar(c: int) { 0 <= c < 0xD800 || 0xE000 <= c < 0x11_0000 }

  /** Table 3-6 of the Unicode Standard, six bits at a time. */
  function Utf8(c: int): (r: seq<Byte>)
    requires IsScalar(c)
    ensures |r| >= 1
  {
    var c1 := c / 0x40;
    var c2 := c1 / 0x40;
    if c < 0x80 then [c]
    else if c < 0x800 then [0xC0 + c1, 0x80 + c % 0x40]
    else if c < 0x1_0000 then [0xE0 + c2, 0x80 + c1 % 0x40, 0x80 + c % 0x40]
    else [0xF0 + c2 / 0x40, 0x80 + c2 % 0x40, 0x80 + c1 % 0x40, 0x80 + c % 0x40]
  }

  predicate AllScalars(cs: seq<int>) { forall i :: 0 <= i < |cs| ==> IsScalar(cs[i]) }

  function Utf8All(cs: seq<int>): seq<Byte>
    requires AllScalars(cs)
  {
    if cs == [] then [] else Utf8(cs[0]) + Utf8All(cs[1..])
  }

  /** The bytes of one character, as the decoder tells them apart. */
  predicate OneCharacter(r: seq<Byte>) {
    || (|r| == 1 && r[0] < 0x80)
    || (|r| == 2 && 0xC2 <= r[0] <= 0xDF && Continuation(r[1], 0x80, 0xBF))
    || (|r| == 3 && 0xE0 <= r[0] <= 0xEF && Continuation(r[2], 0x80, 0xBF)
        && Continuation(r[1], if r[0] == 0xE0 then 0xA0 else 0x80, if r[0] == 0xED then 0x9F else 0xBF))
    || (|r| == 4 && 0xF0 <= r[0] <= 0xF4 && Continuation(r[2], 0x80, 0xBF) && Continuation(r[3], 0x80, 0xBF)
        && Continuation(r[1], if r[0] == 0xF0 then 0x90 else 0x80, if r[0] == 0xF4 then 0x8F else 0xBF))
  }

  lemma FirstOne(s: seq<Byte>) returns (n: nat)
    requires s != [] && ValidUtf8(s)
    ensures 1 <= n <= |s| && OneCharacter(s[..n]) && ValidUtf8(s[n..])
  {
    n := if s[0] < 0x80 then 1 else if s[0] <= 0xDF then 2 else if s[0] <= 0xEF then 3 else 4;
  }

  /** The payload of a continuation byte. */
  function Six(b: Byte): int { b as int - 0x80 }

  lemma OneScalar(r: seq<Byte>) returns (c: int)
    requires OneCharacter(r)
    ensures IsScalar(c) && Utf8(c) == r
  {
    var lead: int := r[0];
    if |r| == 1 {
      c := lead;
    } else if |r| == 2 {
      c := (lead - 0xC0) * 0x40 + Six(r[1]);
      Radix.DivUnique(0x40, lead - 0xC0, Six(r[1]));
    } else if |r| == 3 {
      c := ThreeBytes(r);
    } else {
      c := FourBytes(r);
    }
  }

  lemma ThreeBytes(r: seq<Byte>) returns (c: int)
    requires OneCharacter(r) && |r| == 3
    ensures IsScalar(c) && Utf8(c) == r
  {
    var c2 := r[0] as int - 0xE0;
    var c1 := c2 * 0x40 + Six(r[1]);
    c := c1 * 0x40 + Six(r[2]);
    Radix.DivUnique(0x40, c2, Six(r[1]));
    Radix.DivUnique(0x40, c1, Six(r[2]));
    assert 0x800 <= c < 0x1_0000;
  }

  lemma FourBytes(r: seq<Byte>) returns (c: int)
    requires OneCharacter(r) && |r| == 4
    ensures IsScalar(c) && Utf8(c) == r
  {
    var c3 := r[0] as int - 0xF0;
    var c2 := c3 * 0x40 + Six(r[1]);
    var c1 := c2 * 0x40 + Six(r[2]);
    c := c1 * 0x40 + Six(r[3]);
    Radix.DivUnique(0x40, c3, Six(r[1]));
    Radix.DivUnique(0x40, c2, Six(r[2]));
    Radix.DivUnique(0x40, c1, Six(r[3]));
    assert 0x1_0000 <= c < 0x11_0000;
  }

  lemma ScalarIsOne(c: int)
    requires IsScalar(c)
    ensures OneCharacter(Utf8(c))
  {
    var c1 := c / 0x40;
    var c2 := c1 / 0x40;
    assert c == c1 * 0x40 + c % 0x40 && c1 == c2 * 0x40 + c1 % 0x40 && c2 == c2 / 0x40 * 0x40 + c2 % 0x40;
  }

  lemma OneThenRest(r: seq<Byte>, rest: seq<Byte>)
    requires OneCharacter(r)
    ensures ValidUtf8(r + rest) <==> ValidUtf8(rest)
  {
    assert (r + rest)[|r|..] == rest;
  }

  lemma {:induction false} ScalarsOf(s: seq<Byte>) returns (cs: seq<int>)
    requires ValidUtf8(s)
    ensures AllScalars(cs) && Utf8All(cs) == s
    decreases |s|
  {
    if s == [] {
      cs := [];
    } else {
      hide ValidUtf8, Utf8, OneCharacter;
      var n := FirstOne(s);
      var c := OneScalar(s[..n]);
      var rest := ScalarsOf(s[n..]);
      cs := [c] + rest;
      assert cs[1..] == rest && s == s[..n] + s[n..];
    }
  }

  lemma {:induction false} ScalarsAreText(cs: seq<int>)
    requires AllScalars(cs)
    ensures ValidUtf8(Utf8All(cs))
  {
    if cs != [] {
      hide ValidUtf8, Utf8, OneCharacter;
      ScalarsAreText(cs[1..]);
      ScalarIsOne(cs[0]);
      OneThenRest(Utf8(cs[0]), Utf8All(cs[1..]));
    }
  }

  /** The bytes accepted as text are exactly the UTF-8 encodings of sequences of scalar values. */
  lemma TextIff(s: seq<Byte>)
    ensures ValidUtf8(s) <==> exists cs :: AllScalars(cs) && Utf8All(cs) == s
  {
    if ValidUtf8(s) { var cs := ScalarsOf(s); }
    if cs :| AllScalars(cs) && Utf8All(cs) == s { ScalarsAreText(cs); }
  }
}
