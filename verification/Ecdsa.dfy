/** ECDSA-Sig-Value to `r || s`: `derEcdsaToJoseSignature` and `normalizeEcdsaSignature` of key-custody.ts. */
module Ecdsa {
  import opened Common
  import Der
  import DerScalars
  import Radix

  datatype Error =
    | MissingSequence | TruncatedLength | UnsupportedLength | LengthMismatch | MissingInteger | TruncatedInteger
    | UnsupportedInteger | IntegerOverrun | CoordinateTooWide | TrailingBytes | NotASignature

  // -------------------------------------------------------- what is accepted

  /** `n` as the reader takes a SEQUENCE length: one octet up to 0x80, or 0x81 or 0x82 and that many, minimal or not. */
  predicate IsLength(bs: seq<Byte>, n: nat) {
    || (|bs| == 1 && bs[0] == n <= 0x80)
    || (|bs| == 2 && bs[0] == 0x81 && bs[1] == n)
    || (|bs| == 3 && bs[0] == 0x82 && bs[1] as int * 256 + bs[2] == n)
  }

  predicate IsContent(v: seq<Byte>) { 1 <= |v| <= 0x7f }

  function IntegerTlv(v: seq<Byte>): (r: seq<Byte>)
    requires IsContent(v)
  {
    [2, |v|] + v
  }

  /** `der` is a SEQUENCE of two INTEGERs with contents `rv` and `sv`. */
  predicate IsSignature(der: seq<Byte>, lengthBytes: seq<Byte>, rv: seq<Byte>, sv: seq<Byte>) {
    && IsContent(rv) && IsContent(sv) && IsLength(lengthBytes, |rv| + |sv| + 4)
    && der == [0x30] + (lengthBytes + (IntegerTlv(rv) + IntegerTlv(sv)))
  }

  predicate Fits(v: seq<Byte>, width: nat) { Radix.Value(256, v) < Radix.Pow(256, width) }

  function Joined(rv: seq<Byte>, sv: seq<Byte>, width: nat): seq<Byte> {
    FixedOctets(Radix.Value(256, rv), width) + FixedOctets(Radix.Value(256, sv), width)
  }

  // ------------------------------------------------------------------ padding

  lemma {:induction false} DropZero(v: seq<Byte>, k: nat)
    requires k <= |v| && forall i :: 0 <= i < k ==> v[i] == 0
    ensures Radix.Value(256, v[k..]) == Radix.Value(256, v)
  {
    if k > 0 {
      DropZero(v, k - 1);
      var u := v[k - 1..];
      assert u == [0] + v[k..];
      DerScalars.LeadingZeroValue(v[k..]);
    } else {
      assert v[0..] == v;
    }
  }

  lemma PaddedIsFixed(v: seq<Byte>, width: nat)
    requires |v| <= width
    ensures Radix.Value(256, v) < Radix.Pow(256, width)
    ensures seq(width - |v|, _ => 0) + v == Radix.Fixed(256, Radix.Value(256, v), width)
  {
    var p: seq<Byte> := seq(width - |v|, _ => 0) + v;
    DropZero(p, width - |v|);
    assert p[width - |v|..] == v;
    Radix.FixedOfValue(256, p);
    Radix.ValueBelow(256, p);
  }

  /** `pad`: trim the sign octets, refuse what is too wide, copy to the right end of a zeroed buffer. */
  method Pad(value: seq<Byte>, width: nat) returns (r: Result<seq<Byte>, Error>)
    requires value != [] && width >= 1
    ensures r == if Fits(value, width) then Ok(FixedOctets(Radix.Value(256, value), width)) else Err(CoordinateTooWide)
  {
    hide Radix.Value, Radix.Pow, Radix.Fixed;
    var start := 0;
    while start < |value| - 1 && value[start] == 0
      invariant start <= |value| - 1 && forall i :: 0 <= i < start ==> value[i] == 0
    {
      start := start + 1;
    }
    var trimmed := value[start..];
    DropZero(value, start);
    if |trimmed| > width {
      Radix.ValueAtLeast(256, trimmed);
      Radix.PowMonotone(256, width, |trimmed| - 1);
      return Err(CoordinateTooWide);
    }
    var out := new Byte[width](_ => 0);
    forall i | 0 <= i < |trimmed| { out[width - |trimmed| + i] := trimmed[i]; }
    PaddedIsFixed(trimmed, width);
    assert out[..] == seq(width - |trimmed|, _ => 0) + trimmed;
    return Ok(out[..]);
  }

  // ------------------------------------------------------------------ reading

  ghost predicate NoIntegerAt(der: seq<Byte>, i: nat) { forall v :: IsContent(v) ==> !At(der, i, IntegerTlv(v)) }

  /** `readInteger` at cursor `i`; on success the content and the cursor after it. */
  method ReadInteger(der: seq<Byte>, i: nat) returns (r: Result<seq<Byte>, Error>, next: nat)
    requires i <= |der|
    ensures r.Ok? ==> IsContent(r.value) && At(der, i, IntegerTlv(r.value)) && next == i + 2 + |r.value|
    ensures r.Err? ==> NoIntegerAt(der, i)
  {
    next := i;
    if i >= |der| || der[i] != 2 {
      forall v | IsContent(v) ensures !At(der, i, IntegerTlv(v)) { TlvHead(der, i, v); }
      return Err(MissingInteger), next;
    }
    if i + 1 >= |der| {
      forall v | IsContent(v) ensures !At(der, i, IntegerTlv(v)) { TlvHead(der, i, v); }
      return Err(TruncatedInteger), next;
    }
    var len := der[i + 1];
    if len == 0 || len > 0x7f {
      forall v | IsContent(v) ensures !At(der, i, IntegerTlv(v)) { TlvHead(der, i, v); }
      return Err(UnsupportedInteger), next;
    }
    if i + 2 + len > |der| {
      forall v | IsContent(v) ensures !At(der, i, IntegerTlv(v)) { TlvHead(der, i, v); }
      return Err(IntegerOverrun), next;
    }
    var value := der[i + 2..i + 2 + len];
    next := i + 2 + len;
    assert der[i..next] == IntegerTlv(value);
    return Ok(value), next;
  }

  lemma TlvHead(der: seq<Byte>, i: nat, v: seq<Byte>)
    requires IsContent(v)
    ensures At(der, i, IntegerTlv(v)) ==>
        i + 2 + |v| <= |der| && der[i] == 2 && der[i + 1] == |v| && der[i + 2..i + 2 + |v|] == v
  {
    if At(der, i, IntegerTlv(v)) {
      var p := der[i..i + |IntegerTlv(v)|];
      assert der[i] == p[0] && der[i + 1] == p[1] && der[i + 2..i + 2 + |v|] == p[2..];
    }
  }

  lemma TlvUnique(der: seq<Byte>, i: nat, v: seq<Byte>, w: seq<Byte>)
    requires IsContent(v) && IsContent(w) && At(der, i, IntegerTlv(v)) && At(der, i, IntegerTlv(w))
    ensures v == w
  {
    TlvHead(der, i, v);
    TlvHead(der, i, w);
  }

  /** The cursor after the SEQUENCE header, if the header spans the whole buffer. */
  method ReadHeader(der: seq<Byte>) returns (r: Result<nat, Error>)
    ensures r.Ok? ==> 2 <= r.value <= |der| && der[0] == 0x30 && IsLength(der[1..r.value], |der| - r.value)
    ensures r.Err? ==> forall k :: 2 <= k <= |der| && der[0] == 0x30 ==> !IsLength(der[1..k], |der| - k)
  {
    if |der| == 0 || der[0] != 0x30 { return Err(MissingSequence); }
    if |der| < 2 { return Err(TruncatedLength); }
    var i, length: int := 2, der[1];
    if length == 0x81 {
      if |der| < 3 { return Err(TruncatedLength); }
      i, length := 3, der[2];
    } else if length == 0x82 {
      if |der| < 4 { return Err(TruncatedLength); }
      var hi: int := der[2];
      i, length := 4, hi * 256 + der[3];
    } else if length > 0x82 {
      return Err(UnsupportedLength);
    }
    if i + length != |der| { return Err(LengthMismatch); }
    return Ok(i);
  }

  // ------------------------------------------------------------------ converting

  /** `out` is what conversion means: both INTEGERs, unsigned, in fixed width. */
  predicate ConvertsBy(der: seq<Byte>, width: nat, out: seq<Byte>, lengthBytes: seq<Byte>, rv: seq<Byte>,
      sv: seq<Byte>) {
    IsSignature(der, lengthBytes, rv, sv) && Fits(rv, width) && Fits(sv, width) && out == Joined(rv, sv, width)
  }

  ghost predicate Converts(der: seq<Byte>, width: nat, out: seq<Byte>) {
    exists lengthBytes, rv, sv :: ConvertsBy(der, width, out, lengthBytes, rv, sv)
  }

  /** Where the parts of a signature lie. */
  lemma SignatureParts(der: seq<Byte>, lb: seq<Byte>, rv: seq<Byte>, sv: seq<Byte>)
    requires IsSignature(der, lb, rv, sv)
    ensures var k := 1 + |lb|;
      && 2 <= k <= |der| && der[0] == 0x30 && der[1..k] == lb && IsLength(lb, |der| - k)
      && At(der, k, IntegerTlv(rv)) && At(der, k + 2 + |rv|, IntegerTlv(sv)) && k + 4 + |rv| + |sv| == |der|
  {
    var tail := IntegerTlv(rv) + IntegerTlv(sv);
    var k := 1 + |lb|;
    assert der[1..] == lb + tail;
    assert der[1..k] == der[1..][..|lb|];
    assert der[k..k + |tail|] == tail;
    AtConcat(der, k, IntegerTlv(rv), IntegerTlv(sv));
  }

  /** The length form is decided by its first octet. */
  lemma LengthUnique(der: seq<Byte>, j: nat, k: nat, n: nat, m: nat)
    requires 2 <= j <= |der| && 2 <= k <= |der| && IsLength(der[1..j], n) && IsLength(der[1..k], m)
    ensures j == k
  {
    assert der[1..j][0] == der[1] == der[1..k][0];
  }

  /** A signature is taken apart in one way only. */
  lemma SignatureUnique(der: seq<Byte>, lb: seq<Byte>, rv: seq<Byte>, sv: seq<Byte>, lb': seq<Byte>, rv': seq<Byte>,
      sv': seq<Byte>)
    requires IsSignature(der, lb, rv, sv) && IsSignature(der, lb', rv', sv')
    ensures rv == rv' && sv == sv'
  {
    SignatureParts(der, lb, rv, sv);
    SignatureParts(der, lb', rv', sv');
    LengthUnique(der, 1 + |lb|, 1 + |lb'|, |der| - 1 - |lb|, |der| - 1 - |lb'|);
    TlvUnique(der, 1 + |lb|, rv, rv');
    TlvUnique(der, 3 + |lb| + |rv|, sv, sv');
  }

  lemma SignatureFromParts(der: seq<Byte>, k: nat, rv: seq<Byte>, sv: seq<Byte>)
    requires 2 <= k <= |der| && der[0] == 0x30 && IsLength(der[1..k], |der| - k) && IsContent(rv) && IsContent(sv)
    requires At(der, k, IntegerTlv(rv)) && At(der, k + 2 + |rv|, IntegerTlv(sv)) && k + 4 + |rv| + |sv| == |der|
    ensures IsSignature(der, der[1..k], rv, sv)
  {
    AtConcat(der, k, IntegerTlv(rv), IntegerTlv(sv));
    var tail := IntegerTlv(rv) + IntegerTlv(sv);
    assert der[k..k + |tail|] == der[k..] == tail;
    assert der == [der[0]] + (der[1..k] + der[k..]);
  }

  /** Any reading of `der` as a signature starts its first INTEGER at the cursor the header reader returned. */
  lemma OnlyCursor(der: seq<Byte>, i: nat, lb: seq<Byte>, rv: seq<Byte>, sv: seq<Byte>)
    requires IsSignature(der, lb, rv, sv) && 2 <= i <= |der| && IsLength(der[1..i], |der| - i)
    ensures i == 1 + |lb| && IsContent(rv) && IsContent(sv)
    ensures At(der, i, IntegerTlv(rv)) && At(der, i + 2 + |rv|, IntegerTlv(sv)) && i + 4 + |rv| + |sv| == |der|
  {
    SignatureParts(der, lb, rv, sv);
    LengthUnique(der, i, 1 + |lb|, |der| - i, |der| - 1 - |lb|);
  }

  lemma ConvertedOnce(der: seq<Byte>, width: nat, lb: seq<Byte>, rv: seq<Byte>, sv: seq<Byte>)
    requires IsSignature(der, lb, rv, sv) && Fits(rv, width) && Fits(sv, width)
    ensures forall out :: Converts(der, width, out) <==> out == Joined(rv, sv, width)
  {
    hide IsSignature, Fits;
    assert ConvertsBy(der, width, Joined(rv, sv, width), lb, rv, sv);
    forall out | Converts(der, width, out) ensures out == Joined(rv, sv, width) {
      var lb', rv', sv' :| ConvertsBy(der, width, out, lb', rv', sv');
      SignatureUnique(der, lb, rv, sv, lb', rv', sv');
    }
  }

  /** From cursor `i` to the end there are two INTEGERs with these contents. */
  predicate PartsAt(der: seq<Byte>, i: nat, rv: seq<Byte>, sv: seq<Byte>) {
    && IsContent(rv) && IsContent(sv) && i + 4 + |rv| + |sv| == |der|
    && At(der, i, IntegerTlv(rv)) && At(der, i + 2 + |rv|, IntegerTlv(sv))
  }

  ghost predicate DeadEnd(der: seq<Byte>, width: nat, i: nat) {
    forall rv, sv | PartsAt(der, i, rv, sv) :: !(Fits(rv, width) && Fits(sv, width))
  }

  lemma NoConversion(der: seq<Byte>, width: nat, i: nat)
    requires 2 <= i <= |der| && IsLength(der[1..i], |der| - i) && DeadEnd(der, width, i)
    ensures forall out :: !Converts(der, width, out)
  {
    hide Fits, IsSignature, Joined, IsLength;
    forall out ensures !Converts(der, width, out) {
      if Converts(der, width, out) {
        var lb, rv, sv :| ConvertsBy(der, width, out, lb, rv, sv);
        OnlyCursor(der, i, lb, rv, sv);
      }
    }
  }

  lemma NoHeader(der: seq<Byte>, width: nat)
    requires forall k :: 2 <= k <= |der| && der[0] == 0x30 ==> !IsLength(der[1..k], |der| - k)
    ensures forall out :: !Converts(der, width, out)
  {
    hide Fits, IsSignature, Joined;
    forall out ensures !Converts(der, width, out) {
      if Converts(der, width, out) {
        var lb, rv, sv :| ConvertsBy(der, width, out, lb, rv, sv);
        SignatureParts(der, lb, rv, sv);
      }
    }
  }

  /** Contents that have been read are the only candidates. */
  lemma DeadAfterFirst(der: seq<Byte>, width: nat, i: nat, rv: seq<Byte>)
    requires IsContent(rv) && At(der, i, IntegerTlv(rv)) && (!Fits(rv, width) || NoIntegerAt(der, i + 2 + |rv|))
    ensures DeadEnd(der, width, i)
  {
    hide Fits;
    forall x, y | PartsAt(der, i, x, y) ensures !(Fits(x, width) && Fits(y, width)) { TlvUnique(der, i, rv, x); }
  }

  lemma DeadAfterSecond(der: seq<Byte>, width: nat, i: nat, rv: seq<Byte>, sv: seq<Byte>)
    requires IsContent(rv) && At(der, i, IntegerTlv(rv)) && IsContent(sv) && At(der, i + 2 + |rv|, IntegerTlv(sv))
    requires !Fits(sv, width) || i + 4 + |rv| + |sv| != |der|
    ensures DeadEnd(der, width, i)
  {
    hide Fits;
    forall x, y | PartsAt(der, i, x, y) ensures !(Fits(x, width) && Fits(y, width)) {
      TlvUnique(der, i, rv, x);
      TlvUnique(der, i + 2 + |rv|, sv, y);
    }
  }

  /** The two `set` calls into a buffer of twice the width. */
  method Join(r: seq<Byte>, s: seq<Byte>) returns (out: seq<Byte>)
    requires |r| == |s|
    ensures out == r + s
  {
    var joined := new Byte[2 * |r|](_ => 0);
    forall n | 0 <= n < |r| { joined[n] := r[n]; }
    forall n | 0 <= n < |r| { joined[|r| + n] := s[n]; }
    out := joined[..];
  }

  /**
   * `derEcdsaToJoseSignature`: on every accepted input the halves are the unsigned INTEGER contents, and nothing else
   * is accepted.
   */
  method DerEcdsaToJose(der: seq<Byte>, width: nat) returns (r: Result<seq<Byte>, Error>)
    requires width >= 1
    ensures forall out :: r == Ok(out) <==> Converts(der, width, out)
  {
    hide Radix.Value, Radix.Pow, Radix.Fixed, IsSignature, IsLength, At, Converts, DeadEnd;
    var h := ReadHeader(der);
    if h.Err? { NoHeader(der, width); return Err(h.error); }
    var i := h.value;
    var rv, j := ReadInteger(der, i);
    if rv.Err? { DeadHere(der, width, i); NoConversion(der, width, i); return Err(rv.error); }
    var pr := Pad(rv.value, width);
    if pr.Err? { DeadAfterFirst(der, width, i, rv.value); NoConversion(der, width, i); return Err(pr.error); }
    var sv, k := ReadInteger(der, j);
    if sv.Err? { DeadAfterFirst(der, width, i, rv.value); NoConversion(der, width, i); return Err(sv.error); }
    var ps := Pad(sv.value, width);
    if ps.Err? {
      DeadAfterSecond(der, width, i, rv.value, sv.value);
      NoConversion(der, width, i);
      return Err(ps.error);
    }
    if k != |der| {
      DeadAfterSecond(der, width, i, rv.value, sv.value);
      NoConversion(der, width, i);
      return Err(TrailingBytes);
    }
    var joined := Join(pr.value, ps.value);
    SignatureFromParts(der, i, rv.value, sv.value);
    ConvertedOnce(der, width, der[1..i], rv.value, sv.value);
    return Ok(joined);
  }

  lemma DeadHere(der: seq<Byte>, width: nat, i: nat)
    requires NoIntegerAt(der, i)
    ensures DeadEnd(der, width, i)
  {
  }

  // ---------------------------------------------------------------- round trip

  function IntegerNode(n: int): Der.Node { Der.Node(Der.Tag(0, false, 2), DerScalars.IntegerBytes(n), []) }

  /** The DER encoding of `SEQUENCE { INTEGER r, INTEGER s }`. */
  function SignatureNode(r: nat, s: nat): Der.Node {
    Der.Node(Der.Tag(0, true, 16), Tlv(r) + Tlv(s), [IntegerNode(r), IntegerNode(s)])
  }

  function Tlv(n: nat): seq<Byte> {
    var bs := DerScalars.IntegerBytes(n);
    if IsContent(bs) then IntegerTlv(bs) else []
  }

  lemma IntegerBytesLength(n: nat, width: nat)
    requires width >= 1 && n < Radix.Pow(256, width)
    ensures 1 <= |DerScalars.IntegerBytes(n)| <= width + 1
  {
    Radix.MinimalLength(256, n, width);
  }

  lemma IntegerNodeBytes(n: nat, width: nat)
    requires 1 <= width <= 126 && n < Radix.Pow(256, width)
    ensures Der.WellFormed(IntegerNode(n)) && Der.Encode(IntegerNode(n)) == Tlv(n)
    ensures IsContent(DerScalars.IntegerBytes(n))
  {
    hide Radix.Pow, DerScalars.IntegerBytes;
    IntegerBytesLength(n, width);
    var bs := DerScalars.IntegerBytes(n);
    assert Der.TagBytes(Der.Tag(0, false, 2)) == [2] && Der.LengthBytes(|bs|) == [|bs|];
    assert [2] + ([|bs|] + bs) == [2, |bs|] + bs;
  }

  lemma ShortLengthForms(n: nat)
    requires n < 0x1_0000
    ensures Der.ValidLength(n) && IsLength(Der.LengthBytes(n), n)
  {
    if 128 <= n < 256 {
      assert Radix.Minimal(256, n) == [n];
    } else if n >= 256 {
      assert Radix.Minimal(256, n / 256) == [n / 256];
      assert Radix.Minimal(256, n) == [n / 256, n % 256];
    }
  }

  /** That tree is well-formed DER, and its encoding is read as a signature with these INTEGER contents. */
  lemma SignatureBytes(r: nat, s: nat, width: nat)
    requires 1 <= width <= 126 && r < Radix.Pow(256, width) && s < Radix.Pow(256, width)
    ensures Der.WellFormed(SignatureNode(r, s))
    ensures var der, n := Der.Encode(SignatureNode(r, s)), |Tlv(r) + Tlv(s)|;
      && n < 0x1_0000 && IsSignature(der, Der.LengthBytes(n), DerScalars.IntegerBytes(r), DerScalars.IntegerBytes(s))
  {
    hide Radix.Pow, Der.LengthBytes, DerScalars.IntegerBytes, Der.Encode;
    IntegerNodeBytes(r, width);
    IntegerNodeBytes(s, width);
    var body := Tlv(r) + Tlv(s);
    ShortLengthForms(|body|);
    TwoChildren(IntegerNode(r), IntegerNode(s));
    EncodeSequence(SignatureNode(r, s));
  }

  lemma TwoChildren(a: Der.Node, b: Der.Node)
    requires Der.WellFormed(a) && Der.WellFormed(b)
    ensures Der.AllWellFormed([a, b]) && Der.EncodeAll([a, b]) == Der.Encode(a) + Der.Encode(b)
  {
    hide Der.WellFormed, Der.Encode;
    assert [a, b][1..] == [b] && [b][1..] == [];
    assert Der.AllWellFormed([]) && Der.EncodeAll([]) == [];
    assert Der.AllWellFormed([b]) && Der.EncodeAll([b]) == Der.Encode(b) + [] == Der.Encode(b);
  }

  lemma EncodeSequence(v: Der.Node)
    requires Der.Encodable(v) && v.tag == Der.Tag(0, true, 16)
    ensures Der.Encode(v) == [0x30] + (Der.LengthBytes(|v.content|) + v.content)
  {
    hide Der.LengthBytes;
    assert Der.TagBytes(v.tag) == [0x30];
  }

  /** For all `r` and `s` of at most `width` octets, converting their DER encoding gives the two fixed-width values. */
  lemma ConvertRoundTrip(r: nat, s: nat, width: nat)
    requires 1 <= width <= 126 && r < Radix.Pow(256, width) && s < Radix.Pow(256, width)
    ensures Der.WellFormed(SignatureNode(r, s))
    ensures forall out ::
      Converts(Der.Encode(SignatureNode(r, s)), width, out) <==> out == FixedOctets(r, width) + FixedOctets(s, width)
  {
    hide Radix.Pow, Radix.Value, Der.Encode, Der.LengthBytes, DerScalars.IntegerBytes;
    SignatureBytes(r, s, width);
    UnsignedContent(r);
    UnsignedContent(s);
    var rb, sb := DerScalars.IntegerBytes(r), DerScalars.IntegerBytes(s);
    ConvertedOnce(Der.Encode(SignatureNode(r, s)), width, Der.LengthBytes(|Tlv(r) + Tlv(s)|), rb, sb);
  }

  lemma UnsignedContent(n: nat)
    ensures Radix.Value(256, DerScalars.IntegerBytes(n)) == n
  {
    DerScalars.NonNegativeComplete(n);
  }

  // ------------------------------------------------------------- normalizing

  const WIDTH: nat := 32   // ES256

  ghost predicate Normalizes(sig: seq<Byte>, out: seq<Byte>) {
    if |sig| == 2 * WIDTH then out == sig
    else |sig| > 8 && sig[0] == 0x30 && Converts(sig, WIDTH, out)
  }

  method NormalizeEcdsaSignature(sig: seq<Byte>) returns (r: Result<seq<Byte>, Error>)
    ensures forall out :: r == Ok(out) <==> Normalizes(sig, out)
  {
    hide Converts;
    if |sig| == 2 * WIDTH { return Ok(sig); }
    if |sig| > 8 && sig[0] == 0x30 {
      r := DerEcdsaToJose(sig, WIDTH);
      return;
    }
    return Err(NotASignature);
  }

  /** A 64-octet DER signature is never its own `r || s`. */
  lemma NotItsOwnJoin(r: nat, s: nat)
    requires r < Radix.Pow(256, WIDTH) && s < Radix.Pow(256, WIDTH)
    requires Der.WellFormed(SignatureNode(r, s)) && |Der.Encode(SignatureNode(r, s))| == 64
    ensures Der.Encode(SignatureNode(r, s)) != FixedOctets(r, WIDTH) + FixedOctets(s, WIDTH)
  {
    hide Radix.Pow, Radix.Value, Radix.Fixed, Der.Encode, Der.LengthBytes, DerScalars.IntegerBytes;
    SignatureBytes(r, s, WIDTH);
    var der, rb, sb := Der.Encode(SignatureNode(r, s)), DerScalars.IntegerBytes(r), DerScalars.IntegerBytes(s);
    SignatureParts(der, Der.LengthBytes(|Tlv(r) + Tlv(s)|), rb, sb);
    ShortForm(|Tlv(r) + Tlv(s)|);
    var k := 1 + |Der.LengthBytes(|Tlv(r) + Tlv(s)|)|;
    assert k == 2;
    TlvHead(der, k, rb);
    TlvHead(der, k + 2 + |rb|, sb);
    hide IsSignature, At;
    var joined := FixedOctets(r, WIDTH) + FixedOctets(s, WIDTH);
    assert joined[0] == FixedOctets(r, WIDTH)[0] && joined[36] == FixedOctets(s, WIDTH)[4];
    if der == joined {
      LeadingOctet(r, rb);
      ShortCoordinate(s, sb);
    }
  }

  lemma ShortForm(n: nat)
    ensures n < 128 ==> |Der.LengthBytes(n)| == 1
  {
  }

  /** A nonzero top octet below 128 means the INTEGER content is the coordinate itself. */
  lemma LeadingOctet(n: nat, bs: seq<Byte>)
    requires n < Radix.Pow(256, WIDTH) && bs == DerScalars.IntegerBytes(n) && 0 < FixedOctets(n, WIDTH)[0] < 128
    ensures |bs| == 32
  {
    var c := FixedOctets(n, WIDTH);
    Radix.ValueOfFixed(256, n, WIDTH);
    Radix.MinimalOfValue(256, c);
  }

  /** A short INTEGER content leaves zero octets at the front of the coordinate. */
  lemma ShortCoordinate(n: nat, bs: seq<Byte>)
    requires bs == DerScalars.IntegerBytes(n) && |bs| <= 26
    ensures FixedOctets(n, WIDTH)[4] == 0
  {
    DerScalars.NonNegativeComplete(n);
    PaddedIsFixed(bs, WIDTH);
    assert (seq(WIDTH - |bs|, _ => 0) + bs)[4] == 0;
  }

  /**
   * The exact condition for ES256: normalizing the DER encoding of `(r, s)` yields their `r || s` if and only if the
   * encoding is longer than 8 octets and not 64 octets long.
   */
  lemma NormalizeAgreesIff(r: nat, s: nat)
    requires r < Radix.Pow(256, WIDTH) && s < Radix.Pow(256, WIDTH)
    ensures Der.WellFormed(SignatureNode(r, s))
    ensures var der := Der.Encode(SignatureNode(r, s));
      Normalizes(der, FixedOctets(r, WIDTH) + FixedOctets(s, WIDTH)) <==> |der| > 8 && |der| != 64
  {
    hide Radix.Pow, Radix.Value, Radix.Fixed, Der.Encode, Der.LengthBytes, DerScalars.IntegerBytes, Converts;
    ConvertRoundTrip(r, s, WIDTH);
    SignatureBytes(r, s, WIDTH);
    var der := Der.Encode(SignatureNode(r, s));
    assert der[0] == 0x30;
    if |der| == 64 { NotItsOwnJoin(r, s); }
  }
}
