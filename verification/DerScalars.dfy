/** INTEGER and OBJECT IDENTIFIER contents as packages/attestation/src/der.ts reads them. */
module DerScalars {
  import opened Common
  import opened Base128
  import Radix

  // ---------------------------------------------------------------- INTEGER

  datatype IntegerError = EmptyInteger | NonMinimalInteger

  function Complement(bs: seq<Byte>): (r: seq<Byte>)
    ensures |r| == |bs| && forall i :: 0 <= i < |bs| ==> r[i] == 255 - bs[i]
  {
    seq(|bs|, i requires 0 <= i < |bs| => 255 - bs[i])
  }

  /** The shortest two's complement form: a clear sign bit for `n >= 0`, the complement of `-1 - n` below zero. */
  function IntegerBytes(n: int): seq<Byte>
    decreases n < 0
  {
    if n >= 0 then (if Octets(n)[0] < 128 then Octets(n) else [0] + Octets(n)) else Complement(IntegerBytes(-1 - n))
  }

  /** The two redundant beginnings. */
  predicate Redundant(bs: seq<Byte>) {
    |bs| > 1 && ((bs[0] == 0 && bs[1] < 128) || (bs[0] == 255 && bs[1] >= 128))
  }

  function Signed(bs: seq<Byte>): int
    requires bs != []
  {
    Radix.Value(256, bs) - (if bs[0] >= 128 then Radix.Pow(256, |bs|) else 0)
  }

  lemma {:induction false} ValueComplement(bs: seq<Byte>)
    ensures Radix.Value(256, Complement(bs)) + Radix.Value(256, bs) == Radix.Pow(256, |bs|) - 1
  {
    if bs != [] {
      var front, c := bs[..|bs| - 1], Complement(bs);
      assert c[..|c| - 1] == Complement(front);
      ValueComplement(front);
      Radix.ValueSplit(256, bs);
      Radix.ValueSplit(256, c);
      hide Radix.Value;
      assert Radix.Pow(256, |bs|) == 256 * Radix.Pow(256, |front|);
    }
  }

  lemma ComplementTwice(bs: seq<Byte>)
    ensures Complement(Complement(bs)) == bs
  {
  }

  lemma ComplementSigned(bs: seq<Byte>)
    requires bs != []
    ensures Signed(Complement(bs)) == -1 - Signed(bs) && Redundant(Complement(bs)) == Redundant(bs)
  {
    hide Radix.Value, Radix.Pow;
    ValueComplement(bs);
  }

  lemma {:induction false} LeadingZeroValue(bs: seq<Byte>)
    ensures Radix.Value(256, [0] + bs) == Radix.Value(256, bs)
  {
    var z: seq<Byte> := [0] + bs;
    if bs == [] {
      assert z[..0] == [];
    } else {
      assert z[..|z| - 1] == [0] + bs[..|bs| - 1];
      LeadingZeroValue(bs[..|bs| - 1]);
    }
  }

  lemma NonNegativeSound(bs: seq<Byte>)
    requires bs != [] && bs[0] < 128 && !Redundant(bs)
    ensures Signed(bs) >= 0 && IntegerBytes(Signed(bs)) == bs
  {
    var n := Signed(bs);
    if |bs| > 1 && bs[0] == 0 {
      var rest := bs[1..];
      assert bs == [0] + rest;
      LeadingZeroValue(rest);
      Radix.MinimalOfValue(256, rest);
      assert Octets(n) == rest;
    } else {
      Radix.MinimalOfValue(256, bs);
      assert Octets(n) == bs;
    }
  }

  lemma IntegerSound(bs: seq<Byte>)
    requires bs != [] && !Redundant(bs)
    ensures IntegerBytes(Signed(bs)) == bs
  {
    hide Signed, Redundant, Radix.Value, Radix.Pow;
    if bs[0] < 128 {
      NonNegativeSound(bs);
    } else {
      ComplementSigned(bs);
      NonNegativeSound(Complement(bs));
      ComplementTwice(bs);
    }
  }

  lemma NonNegativeComplete(n: nat)
    ensures var bs := IntegerBytes(n); bs != [] && bs[0] < 128 && !Redundant(bs) && Signed(bs) == n
  {
    Radix.ValueOfMinimal(256, n);
    LeadingZeroValue(Octets(n));
    if |Octets(n)| > 1 { assert Octets(n)[0] != 0; }
  }

  lemma IntegerComplete(n: int)
    ensures var bs := IntegerBytes(n); bs != [] && !Redundant(bs) && Signed(bs) == n
  {
    if n >= 0 {
      NonNegativeComplete(n);
    } else {
      NonNegativeComplete(-1 - n);
      hide Signed, Redundant;
      ComplementSigned(IntegerBytes(-1 - n));
    }
  }

  /** `decodeTwosComplement`: a bijection between minimal non-empty byte strings and all integers. */
  method DecodeTwosComplement(content: seq<Byte>) returns (r: Result<int, IntegerError>)
    ensures forall n :: r == Ok(n) <==> content == IntegerBytes(n)
    ensures r == Err(EmptyInteger) <==> content == []
    ensures r == Err(NonMinimalInteger) <==> Redundant(content)
  {
    if content == [] {
      forall n ensures content != IntegerBytes(n) { IntegerComplete(n); }
      return Err(EmptyInteger);
    }
    if |content| > 1 {
      var a, b := content[0], content[1];
      if (a == 0 && b < 128) || (a == 255 && b >= 128) {
        forall n ensures content != IntegerBytes(n) { IntegerComplete(n); }
        return Err(NonMinimalInteger);
      }
    }
    var value: int := 0;
    for i := 0 to |content|
      invariant value == Radix.Value(256, content[..i])
    {
      value := value * 256 + content[i];
      assert content[..i + 1][..i] == content[..i];
    }
    assert content[..|content|] == content;
    if content[0] >= 128 { value := value - Radix.Pow(256, |content|); }
    assert value == Signed(content);
    IntegerSound(content);
    forall n ensures value == n <==> content == IntegerBytes(n) { IntegerComplete(n); }
    return Ok(value);
  }

  // ------------------------------------------------------------------- OID

  datatype OidError = EmptyOid | TruncatedOid | NonMinimalArc | ArcTooLarge

  const MAX_ARC: nat := 0x1_0000_0000_0000_0000_0000_0000_0000_0000   // accepted: the test is `>`

  /** Subidentifiers, each in its one encoding. */
  function GroupsAll(ss: seq<nat>): seq<Byte> { if ss == [] then [] else Groups(ss[0]) + GroupsAll(ss[1..]) }

  predicate Bounded(ss: seq<nat>) { forall i :: 0 <= i < |ss| ==> ss[i] <= MAX_ARC }

  function Subids(bs: seq<Byte>, pos: nat): (r: Result<seq<nat>, ScanError>)
    requires pos <= |bs|
    decreases |bs| - pos, 1
  {
    if pos == |bs| then Ok([]) else if bs[pos] == 0x80 then Err(NonMinimal) else Resume(bs, pos, 0)
  }

  /** The rest of the list, in the middle of an arc whose octets so far amount to `value`. */
  function Resume(bs: seq<Byte>, pos: nat, value: nat): (r: Result<seq<nat>, ScanError>)
    requires pos <= |bs|
    decreases |bs| - pos, 0
  {
    var r := Scan(bs, pos, value, MAX_ARC);
    if r.Err? then Err(r.error)
    else
      var rest := Subids(bs, r.value.1);
      if rest.Err? then rest else Ok([r.value.0] + rest.value)
  }

  lemma {:induction false} SubidsSound(bs: seq<Byte>, pos: nat)
    requires pos <= |bs|
    ensures Subids(bs, pos).Ok? ==> bs[pos..] == GroupsAll(Subids(bs, pos).value) && Bounded(Subids(bs, pos).value)
    decreases |bs| - pos
  {
    hide Scan, Groups;
    var r := Subids(bs, pos);
    if pos < |bs| && r.Ok? {
      assert r == Resume(bs, pos, 0);
      var (n, next) := Scan(bs, pos, 0, MAX_ARC).value;
      ScanNumberExact(bs, pos, MAX_ARC, n, next);
      SubidsSound(bs, next);
      assert bs[pos..] == bs[pos..next] + bs[next..];
      assert r.value[1..] == Subids(bs, next).value;
    }
  }

  lemma {:induction false} SubidsComplete(ss: seq<nat>, bs: seq<Byte>, pos: nat)
    requires pos <= |bs| && Bounded(ss) && bs[pos..] == GroupsAll(ss)
    ensures Subids(bs, pos) == Ok(ss)
  {
    hide Scan, Groups;
    if ss == [] {
      assert |bs[pos..]| == 0;
    } else {
      var g := Groups(ss[0]);
      assert |bs[pos..]| == |g| + |GroupsAll(ss[1..])|;
      assert bs[pos..pos + |g|] == bs[pos..][..|g|] == g;
      assert bs[pos + |g|..] == bs[pos..][|g|..] == GroupsAll(ss[1..]);
      ScanNumberExact(bs, pos, MAX_ARC, ss[0], pos + |g|);
      SubidsComplete(ss[1..], bs, pos + |g|);
      assert [ss[0]] + ss[1..] == ss;
    }
  }

  /** The last octet of any list of subidentifiers carries no continuation flag. */
  lemma {:induction false} GroupsAllEnds(ss: seq<nat>)
    requires ss != []
    ensures GroupsAll(ss) != [] && GroupsAll(ss)[|GroupsAll(ss)| - 1] < 128
  {
    if |ss| > 1 {
      GroupsAllEnds(ss[1..]);
    } else {
      assert GroupsAll(ss) == Groups(ss[0]);
    }
  }

  /** Binary digits beyond the 53 a double holds. */
  function Shift(n: nat): nat { if n <= MAX_SAFE_INTEGER then 0 else 1 + Shift(n / 2) }

  /** `Number(value)` of a BigInt: the nearest double, ties to even. */
  function ToNumber(n: nat): nat {
    Radix.PowPositive(2, Shift(n));
    var unit := Radix.Pow(2, Shift(n));
    var q, r := n / unit, n % unit;
    if 2 * r < unit || (2 * r == unit && q % 2 == 0) then q * unit else (q + 1) * unit
  }

  /** The first octet group packs two arcs; the code computes with `Number`s there. */
  function FirstArcs(value: nat): seq<nat> {
    var v := ToNumber(value);
    var a1 := if v >= 80 then 2 else v / 40;
    [a1, ToNumber(v - 40 * a1)]
  }

  function Arcs(ss: seq<nat>): seq<nat> { if ss == [] then [] else FirstArcs(ss[0]) + ss[1..] }

  /** Dotted arcs as an object identifier allows them. */
  predicate IsOid(arcs: seq<nat>) {
    |arcs| >= 2 && arcs[0] <= 2 && (arcs[0] < 2 ==> arcs[1] < 40)
  }

  function PackFirst(arcs: seq<nat>): nat
    requires IsOid(arcs)
  {
    40 * arcs[0] + arcs[1]
  }

  function EncodeOid(arcs: seq<nat>): seq<Byte>
    requires IsOid(arcs)
  {
    GroupsAll([PackFirst(arcs)] + arcs[2..])
  }

  lemma SafeIsExact(n: nat)
    requires n <= MAX_SAFE_INTEGER
    ensures ToNumber(n) == n
  {
    assert Radix.Pow(2, 0) == 1;
  }

  lemma ArcsExact(ss: seq<nat>, arcs: seq<nat>)
    requires ss != [] && ss[0] <= MAX_SAFE_INTEGER
    ensures Arcs(ss) == arcs <==> IsOid(arcs) && ss == [PackFirst(arcs)] + arcs[2..]
  {
    var v := ss[0];
    forall n: nat | n <= v ensures ToNumber(n) == n { SafeIsExact(n); }
    if Arcs(ss) == arcs {
      assert arcs[2..] == ss[1..] && arcs[0] == FirstArcs(v)[0] && arcs[1] == FirstArcs(v)[1];
      assert ss == [v] + ss[1..];
    }
    if IsOid(arcs) && ss == [PackFirst(arcs)] + arcs[2..] {
      assert ss[1..] == arcs[2..] && v == PackFirst(arcs);
      assert arcs == [arcs[0], arcs[1]] + arcs[2..];
      assert FirstArcs(v) == [arcs[0], arcs[1]];
    }
  }

  function OidErrorOf(e: ScanError): OidError {
    match e case Truncated => TruncatedOid case NonMinimal => NonMinimalArc case TooLarge => ArcTooLarge
  }

  function DecodeOid(bs: seq<Byte>): Result<seq<nat>, OidError> {
    if bs == [] then Err(EmptyOid)
    else if bs[|bs| - 1] >= 128 then Err(TruncatedOid)
    else
      var r := Subids(bs, 0);
      if r.Err? then Err(OidErrorOf(r.error)) else Ok(Arcs(r.value))
  }

  /** Accepted contents are exactly the encodings of non-empty lists of arcs up to 2^128. */
  lemma OidAccepts(bs: seq<Byte>)
    ensures DecodeOid(bs).Ok? <==> exists ss :: ss != [] && Bounded(ss) && bs == GroupsAll(ss)
    ensures forall ss :: ss != [] && Bounded(ss) && bs == GroupsAll(ss) ==> DecodeOid(bs) == Ok(Arcs(ss))
  {
    hide Arcs;
    assert bs[0..] == bs;
    if DecodeOid(bs).Ok? {
      SubidsSound(bs, 0);
      assert Subids(bs, 0).value != [];
    }
    forall ss | ss != [] && Bounded(ss) && bs == GroupsAll(ss) ensures DecodeOid(bs) == Ok(Arcs(ss)) {
      SubidsComplete(ss, bs, 0);
      GroupsAllEnds(ss);
    }
  }

  /** The first subidentifier of an accepted content. */
  function FirstSubid(bs: seq<Byte>): nat {
    var r := Subids(bs, 0);
    if r.Ok? && r.value != [] then r.value[0] else 0
  }

  /** Where the first subidentifier is a safe integer, decoding is the exact inverse of encoding. */
  lemma OidExact(bs: seq<Byte>, arcs: seq<nat>)
    ensures DecodeOid(bs) == Ok(arcs) && FirstSubid(bs) <= MAX_SAFE_INTEGER <==>
            IsOid(arcs) && PackFirst(arcs) <= MAX_SAFE_INTEGER && Bounded(arcs[2..]) && bs == EncodeOid(arcs)
  {
    hide Arcs, Groups, Subids;
    assert bs[0..] == bs;
    if DecodeOid(bs) == Ok(arcs) && FirstSubid(bs) <= MAX_SAFE_INTEGER {
      SubidsSound(bs, 0);
      var ss := Subids(bs, 0).value;
      assert ss != [];
      ArcsExact(ss, arcs);
      assert arcs[2..] == ss[1..];
    }
    if IsOid(arcs) && PackFirst(arcs) <= MAX_SAFE_INTEGER && Bounded(arcs[2..]) && bs == EncodeOid(arcs) {
      var ss := [PackFirst(arcs)] + arcs[2..];
      SubidsComplete(ss, bs, 0);
      GroupsAllEnds(ss);
      ArcsExact(ss, arcs);
    }
  }

  /** `derOid`: one pass over the octets with the arc so far, and whether an arc has begun. */
  method DerOid(bytes: seq<Byte>) returns (r: Result<seq<nat>, OidError>)
    ensures r == DecodeOid(bytes)
  {
    hide Scan, FirstArcs;
    if bytes == [] { return Err(EmptyOid); }
    if bytes[|bytes| - 1] >= 128 { return Err(TruncatedOid); }
    var parts: seq<nat> := [];
    var value: nat, started, first := 0, false, true;
    ghost var subids: seq<nat> := [];
    assert Prefixed([], Subids(bytes, 0)) == Subids(bytes, 0) by { PrefixedNone(Subids(bytes, 0)); }
    for i := 0 to |bytes|
      invariant first <==> subids == []
      invariant parts == Arcs(subids)
      invariant !started ==> value == 0 && Subids(bytes, 0) == Prefixed(subids, Subids(bytes, i))
      invariant started ==>
          i > 0 && bytes[i - 1] >= 128 && Subids(bytes, 0) == Prefixed(subids, Resume(bytes, i, value))
    {
      var b := bytes[i];
      if !started && b == 0x80 { return Err(NonMinimalArc); }
      ScanUnfold(bytes, i, value);
      started := true;
      value := value * 128 + b % 128;
      if value > MAX_ARC { return Err(ArcTooLarge); }
      if b < 128 {
        PrefixedStep(subids, value, Subids(bytes, i + 1));
        ArcsStep(subids, value);
        if first {
          parts := parts + FirstArcs(value);
          first := false;
        } else {
          parts := parts + [value];
        }
        subids := subids + [value];
        value, started := 0, false;
      }
    }
    assert subids + [] == subids;
    return Ok(parts);
  }

  function Prefixed(front: seq<nat>, r: Result<seq<nat>, ScanError>): Result<seq<nat>, ScanError> {
    if r.Err? then r else Ok(front + r.value)
  }

  lemma PrefixedNone(r: Result<seq<nat>, ScanError>)
    ensures Prefixed([], r) == r
  {
    if r.Ok? { assert [] + r.value == r.value; }
  }

  lemma ScanUnfold(bs: seq<Byte>, pos: nat, value: nat)
    requires pos < |bs|
    ensures var v := value * 128 + bs[pos] % 128;
      if v > MAX_ARC then Resume(bs, pos, value) == Err(TooLarge)
      else if bs[pos] >= 128 then Resume(bs, pos, value) == Resume(bs, pos + 1, v)
      else
        var rest := Subids(bs, pos + 1);
        Resume(bs, pos, value) == if rest.Err? then rest else Ok([v] + rest.value)
  {
    hide Subids;
  }

  lemma PrefixedStep(front: seq<nat>, n: nat, rest: Result<seq<nat>, ScanError>)
    ensures rest.Ok? ==> Prefixed(front + [n], rest) == Prefixed(front, Ok([n] + rest.value))
  {
    if rest.Ok? { assert front + [n] + rest.value == front + ([n] + rest.value); }
  }

  lemma ArcsStep(ss: seq<nat>, n: nat)
    ensures Arcs(ss + [n]) == if ss == [] then Arcs(ss) + FirstArcs(n) else Arcs(ss) + [n]
  {
    hide FirstArcs;
    if ss != [] { assert (ss + [n])[1..] == ss[1..] + [n]; }
  }
}
