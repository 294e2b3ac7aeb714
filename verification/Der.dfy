/**
 * The DER reader of packages/attestation/src/der.ts.
 *
 * `Encode` is the specification: identifier octets, minimal definite length, content. A constructed node's content is
 * tiled exactly by the encodings of its children. `ParseNode` is the reader's behaviour as a function; `DerReader` is
 * the reader itself.
 */
module Der {
  import opened Common
  import opened Base128
  import Radix

  const MAX_TAG: nat := 0x0FFF_FFFF

  datatype Tag = Tag(tagClass: int, constructed: bool, number: nat)
  datatype Node = Node(tag: Tag, content: seq<Byte>, children: seq<Node>)

  datatype Limits = Limits(maxDepth: int, maxNodes: int, maxBytes: int)

  datatype Error =
    | InputTooLarge | TooDeep | TooManyNodes | UnexpectedEnd
    | NonMinimalTag | TagTooLarge | TagTooLong | ShortTagAvailable
    | IndefiniteLength | LengthTooLong | LeadingZeroLength | ShortLengthAvailable | LengthExceedsInput | TrailingBytes

  // ------------------------------------------------- specification: encoder

  predicate ValidTag(t: Tag) { 0 <= t.tagClass < 4 && t.number <= MAX_TAG }

  function Identifier(t: Tag, low: int): Byte
    requires ValidTag(t) && 0 <= low < 32
  {
    t.tagClass * 64 + (if t.constructed then 32 else 0) + low
  }

  function TagBytes(t: Tag): (r: seq<Byte>)
    requires ValidTag(t)
    ensures |r| >= 1
  {
    if t.number < 31 then [Identifier(t, t.number)] else [Identifier(t, 31)] + Groups(t.number)
  }

  predicate ValidLength(n: int) { 0 <= n < 0x1_0000_0000 }

  lemma OctetsAtMostFour(n: nat)
    ensures |Octets(n)| <= 4 <==> ValidLength(n)
  {
    Radix.MinimalLength(256, n, 4);
    assert Radix.Pow(256, 1) == 0x100 && Radix.Pow(256, 2) == 0x1_0000 && Radix.Pow(256, 4) == 0x1_0000_0000;
  }

  function LengthBytes(n: nat): (r: seq<Byte>)
    requires ValidLength(n)
    ensures |r| >= 1
  {
    if n < 128 then [n] else OctetsAtMostFour(n); [128 + |Octets(n)|] + Octets(n)
  }

  predicate Encodable(v: Node) { ValidTag(v.tag) && ValidLength(|v.content|) }

  predicate AllEncodable(vs: seq<Node>) { vs == [] || (Encodable(vs[0]) && AllEncodable(vs[1..])) }

  function Encode(v: Node): (r: seq<Byte>)
    requires Encodable(v)
    ensures |r| >= 2
  {
    TagBytes(v.tag) + (LengthBytes(|v.content|) + v.content)
  }

  function EncodeAll(vs: seq<Node>): seq<Byte>
    requires AllEncodable(vs)
  {
    if vs == [] then [] else Encode(vs[0]) + EncodeAll(vs[1..])
  }

  predicate WellFormed(v: Node): (ok: bool)
    ensures ok ==> Encodable(v)
    decreases v, 1
  {
    && Encodable(v)
    && (if v.tag.constructed then AllWellFormed(v.children) && v.content == EncodeAll(v.children) else v.children == [])
  }

  predicate AllWellFormed(vs: seq<Node>): (ok: bool)
    ensures ok ==> AllEncodable(vs)
    decreases vs, 0
  {
    vs == [] || (WellFormed(vs[0]) && AllWellFormed(vs[1..]))
  }

  /** Nodes in a tree, the root included. */
  function Count(v: Node): (n: nat)
    ensures n >= 1
    decreases v, 1
  {
    1 + CountAll(v.children)
  }

  function CountAll(vs: seq<Node>): nat
    decreases vs, 0
  {
    if vs == [] then 0 else Count(vs[0]) + CountAll(vs[1..])
  }

  predicate NestsWithin(v: Node, levels: int)
    decreases v, 1
  {
    levels >= 0 && AllNestWithin(v.children, levels - 1)
  }

  predicate AllNestWithin(vs: seq<Node>, levels: int)
    decreases vs, 0
  {
    vs == [] || (NestsWithin(vs[0], levels) && AllNestWithin(vs[1..], levels))
  }

  /** What the parser promises to accept, without mentioning how it reads. */
  predicate Encodes(input: seq<Byte>, v: Node, lim: Limits) {
    && |input| <= lim.maxBytes && WellFormed(v) && input == Encode(v)
    && NestsWithin(v, lim.maxDepth) && Count(v) <= lim.maxNodes
  }

  // ------------------------------------------------------ the reader's behaviour

  function ScanErrorOf(e: ScanError): Error {
    match e case Truncated => UnexpectedEnd case NonMinimal => NonMinimalTag case TooLarge => TagTooLarge
  }

  /** The tag number of identifier octet `first`; `pos` is just past that octet. */
  function ParseTagNumber(buf: seq<Byte>, pos: nat, first: Byte): (r: Result<(nat, nat), Error>)
    requires pos <= |buf|
    ensures r.Ok? ==> pos <= r.value.1 <= |buf|
  {
    if first % 32 != 31 then Ok((first % 32, pos))
    else
      var r := ScanNumber(buf, pos, MAX_TAG);
      if r.Err? then Err(ScanErrorOf(r.error))
      else if r.value.0 < 31 then Err(ShortTagAvailable)
      else Ok(r.value)
  }

  function ParseLength(buf: seq<Byte>, pos: nat): (r: Result<(nat, nat), Error>)
    requires pos <= |buf|
    ensures r.Ok? ==> pos < r.value.1 <= |buf|
  {
    if pos == |buf| then Err(UnexpectedEnd)
    else if buf[pos] == 128 then Err(IndefiniteLength)
    else if buf[pos] < 128 then Ok((buf[pos], pos + 1))
    else
      var count := buf[pos] - 128;
      if count > 4 then Err(LengthTooLong)
      else if count > |buf| - pos - 1 then Err(UnexpectedEnd)
      else if buf[pos + 1] == 0 then Err(LeadingZeroLength)
      else
        var n := Radix.Value(256, buf[pos + 1..pos + 1 + count]);
        if n < 128 then Err(ShortLengthAvailable) else Ok((n, pos + 1 + count))
  }

  /** Identifier and length: the tag, where the content starts, and how long it is. */
  function ParseHeader(buf: seq<Byte>, pos: nat): (r: Result<(Tag, nat, nat), Error>)
    requires pos <= |buf|
    ensures r.Ok? ==> pos + 2 <= r.value.1 && r.value.1 + r.value.2 <= |buf|
  {
    if pos == |buf| then Err(UnexpectedEnd)
    else
      var number := ParseTagNumber(buf, pos + 1, buf[pos]);
      if number.Err? then Err(number.error)
      else
        var length := ParseLength(buf, number.value.1);
        if length.Err? then Err(length.error)
        else if length.value.0 > |buf| - length.value.1 then Err(LengthExceedsInput)
        else Ok((Tag(buf[pos] / 64, buf[pos] / 32 % 2 == 1, number.value.0), length.value.1, length.value.0))
  }

  /** Two octets at least for every node, so nodes never outnumber half the bytes read. */
  function ParseNode(buf: seq<Byte>, pos: nat, nodes: nat, depth: int, lim: Limits): (r: Parsed<Node, Error>)
    requires pos <= |buf|
    ensures r.Done? ==> pos < r.pos <= |buf| && nodes < r.used && 2 * (r.used - nodes) <= r.pos - pos
    decreases |buf| - pos, 0
  {
    if depth > lim.maxDepth then Failed(TooDeep)
    else if nodes + 1 > lim.maxNodes then Failed(TooManyNodes)
    else
      var h := ParseHeader(buf, pos);
      if h.Err? then Failed(h.error)
      else
        var (tag, p, n) := h.value;
        var content := buf[p..p + n];
        if !tag.constructed then Done(Node(tag, content, []), p + n, nodes + 1)
        else
          var cs := ParseChildren(content, 0, nodes + 1, depth + 1, lim);
          if cs.Failed? then Failed(cs.error) else Done(Node(tag, content, cs.value), p + n, cs.used)
  }

  function ParseChildren(buf: seq<Byte>, pos: nat, nodes: nat, depth: int, lim: Limits): (r: Parsed<seq<Node>, Error>)
    requires pos <= |buf|
    ensures r.Done? ==> r.pos == |buf| && nodes <= r.used && 2 * (r.used - nodes) <= |buf| - pos
    decreases |buf| - pos, 1
  {
    if pos == |buf| then Done([], pos, nodes)
    else
      var v := ParseNode(buf, pos, nodes, depth, lim);
      if v.Failed? then Failed(v.error)
      else
        var rest := ParseChildren(buf, v.pos, v.used, depth, lim);
        if rest.Failed? then rest else Done([v.value] + rest.value, rest.pos, rest.used)
  }

  function Parse(input: seq<Byte>, lim: Limits): Result<Node, Error> {
    if |input| > lim.maxBytes then Err(InputTooLarge)
    else
      var r := ParseNode(input, 0, 0, 0, lim);
      if r.Failed? then Err(r.error) else if r.pos != |input| then Err(TrailingBytes) else Ok(r.value)
  }

  // ------------------------------------------------------------- headers

  lemma IdentifierSplit(t: Tag, low: int)
    requires ValidTag(t) && 0 <= low < 32
    ensures var b := Identifier(t, low); b % 32 == low && b / 64 == t.tagClass && (b / 32 % 2 == 1 <==> t.constructed)
  {
  }

  lemma IdentifierUnique(b: Byte, t: Tag)
    requires ValidTag(t) && t.tagClass == b / 64 && t.constructed == (b / 32 % 2 == 1)
    ensures Identifier(t, b % 32) == b
  {
  }

  /** The tag is read exactly when its identifier octets are there. */
  lemma TagExact(buf: seq<Byte>, pos: nat, number: nat, next: nat)
    requires pos < |buf|
    ensures var t := Tag(buf[pos] / 64, buf[pos] / 32 % 2 == 1, number);
      ParseTagNumber(buf, pos + 1, buf[pos]) == Ok((number, next)) <==>
      ValidTag(t) && At(buf, pos, TagBytes(t)) && next == pos + |TagBytes(t)|
  {
    hide Identifier, ScanNumber, Groups;
    var b := buf[pos];
    var t := Tag(b / 64, b / 32 % 2 == 1, number);
    if ValidTag(t) { IdentifierUnique(b, t); IdentifierSplit(t, 31); if number < 31 { IdentifierSplit(t, number); } }
    ScanNumberExact(buf, pos + 1, MAX_TAG, number, next);
    if number >= 31 && ValidTag(t) {
      AtConcat(buf, pos, [Identifier(t, 31)], Groups(number));
    }
    assert buf[pos..pos + 1] == [b];
  }

  /** A tag's first octet fixes its class and form. */
  lemma TagLead(buf: seq<Byte>, pos: nat, t: Tag)
    requires ValidTag(t) && At(buf, pos, TagBytes(t))
    ensures pos < |buf| && t.tagClass == buf[pos] / 64 && t.constructed == (buf[pos] / 32 % 2 == 1)
  {
    hide Identifier, Groups;
    IdentifierSplit(t, if t.number < 31 then t.number else 31);
    assert buf[pos] == buf[pos..pos + |TagBytes(t)|][0];
  }

  /** The long form, read from its octets. */
  lemma LongLength(raw: seq<Byte>)
    requires 1 <= |raw| <= 4 && raw[0] != 0 && Radix.Value(256, raw) >= 128
    ensures var n := Radix.Value(256, raw); ValidLength(n) && LengthBytes(n) == [128 + |raw|] + raw
  {
    var n := Radix.Value(256, raw);
    Radix.MinimalOfValue(256, raw);
    hide Radix.Value, Radix.Minimal;
    assert Octets(n) == raw;
    OctetsAtMostFour(n);
  }

  lemma LengthSound(buf: seq<Byte>, pos: nat)
    requires pos <= |buf| && ParseLength(buf, pos).Ok?
    ensures var (n, next) := ParseLength(buf, pos).value;
      ValidLength(n) && At(buf, pos, LengthBytes(n)) && next == pos + |LengthBytes(n)|
  {
    hide Radix.Value, Octets;
    var (n, next) := ParseLength(buf, pos).value;
    if n < 128 {
      assert buf[pos..pos + 1] == [n];
    } else {
      var raw := buf[pos + 1..next];
      LongLength(raw);
      hide LengthBytes;
      assert buf[pos..next] == [buf[pos]] + raw;
    }
  }

  lemma LengthComplete(buf: seq<Byte>, pos: nat, n: nat)
    requires ValidLength(n) && At(buf, pos, LengthBytes(n))
    ensures pos <= |buf| && ParseLength(buf, pos) == Ok((n, pos + |LengthBytes(n)|))
  {
    hide Radix.Value, Radix.Minimal, Radix.Pow;
    var l := LengthBytes(n);
    assert buf[pos] == buf[pos..pos + |l|][0] == l[0];
    if n >= 128 {
      OctetsAtMostFour(n);
      LongForm(n);
      assert buf[pos + 1..pos + |l|] == buf[pos..pos + |l|][1..] == l[1..] == Octets(n);
      assert buf[pos + 1] == Octets(n)[0];
    }
  }

  lemma LongForm(n: nat)
    requires n >= 128
    ensures Radix.Value(256, Octets(n)) == n && Octets(n)[0] != 0
  {
    hide Radix.Value, Radix.Minimal;
    Radix.ValueOfMinimal(256, n);
    LeadingOctet(n);
  }

  lemma LeadingOctet(n: nat)
    requires n >= 1
    ensures Octets(n)[0] != 0
  {
    Radix.ValueOfMinimal(256, n);
    if |Octets(n)| == 1 { assert Octets(n)[..0] == []; }
  }

  /** A header is read exactly when tag, length and that much content are there. */
  lemma HeaderSound(buf: seq<Byte>, pos: nat)
    requires pos <= |buf| && ParseHeader(buf, pos).Ok?
    ensures var (tag, p, n) := ParseHeader(buf, pos).value;
      && ValidTag(tag) && ValidLength(n) && p + n == pos + |TagBytes(tag)| + |LengthBytes(n)| + n
      && At(buf, pos, TagBytes(tag) + (LengthBytes(n) + buf[p..p + n]))
  {
    hide ParseTagNumber, ParseLength, TagBytes, LengthBytes;
    var (tag, p, n) := ParseHeader(buf, pos).value;
    var q := ParseTagNumber(buf, pos + 1, buf[pos]).value.1;
    TagExact(buf, pos, tag.number, q);
    LengthSound(buf, q);
    AtConcat(buf, q, LengthBytes(n), buf[p..p + n]);
    AtConcat(buf, pos, TagBytes(tag), LengthBytes(n) + buf[p..p + n]);
  }

  lemma HeaderComplete(buf: seq<Byte>, pos: nat, tag: Tag, content: seq<Byte>)
    requires ValidTag(tag) && ValidLength(|content|) && At(buf, pos, TagBytes(tag) + (LengthBytes(|content|) + content))
    ensures var p := pos + |TagBytes(tag)| + |LengthBytes(|content|)|;
      && pos <= |buf| && ParseHeader(buf, pos) == Ok((tag, p, |content|)) && p + |content| <= |buf|
      && buf[p..p + |content|] == content
  {
    hide ParseTagNumber, ParseLength, TagBytes, LengthBytes;
    var q := pos + |TagBytes(tag)|;
    AtConcat(buf, pos, TagBytes(tag), LengthBytes(|content|) + content);
    AtConcat(buf, q, LengthBytes(|content|), content);
    TagLead(buf, pos, tag);
    TagExact(buf, pos, tag.number, q);
    LengthComplete(buf, q, |content|);
  }

  // ------------------------------------------------- soundness and completeness

  ghost predicate SoundNode(buf: seq<Byte>, pos: nat, nodes: nat, depth: int, lim: Limits, r: Parsed<Node, Error>) {
    r.Done? ==>
      && WellFormed(r.value) && At(buf, pos, Encode(r.value)) && r.pos == pos + |Encode(r.value)|
      && r.used == nodes + Count(r.value) <= lim.maxNodes && NestsWithin(r.value, lim.maxDepth - depth)
  }

  /** The children tile the buffer from `pos` to its end, and the counter has gone up by exactly their nodes. */
  ghost predicate SoundChildren(buf: seq<Byte>, pos: nat, nodes: nat, depth: int, lim: Limits,
      r: Parsed<seq<Node>, Error>) {
    r.Done? && pos <= |buf| ==>
      && AllWellFormed(r.value) && buf[pos..] == EncodeAll(r.value)
      && r.used == nodes + CountAll(r.value) <= lim.maxNodes && AllNestWithin(r.value, lim.maxDepth - depth)
  }

  lemma {:induction false} NodeSound(buf: seq<Byte>, pos: nat, nodes: nat, depth: int, lim: Limits)
    requires pos <= |buf|
    ensures SoundNode(buf, pos, nodes, depth, lim, ParseNode(buf, pos, nodes, depth, lim))
    decreases |buf| - pos, 0
  {
    hide ParseHeader, ParseChildren, EncodeAll, TagBytes, LengthBytes;
    var r := ParseNode(buf, pos, nodes, depth, lim);
    if r.Done? {
      HeaderSound(buf, pos);
      var (tag, p, n) := ParseHeader(buf, pos).value;
      var content := buf[p..p + n];
      assert |content| == n;
      if tag.constructed {
        ChildrenSound(content, 0, nodes + 1, depth + 1, lim);
        assert content[0..] == content;
      } else {
        assert r == Done(Node(tag, content, []), p + n, nodes + 1) && Count(r.value) == 1;
        assert NestsWithin(r.value, lim.maxDepth - depth);
      }
    }
  }

  lemma {:induction false} ChildrenSound(buf: seq<Byte>, pos: nat, nodes: nat, depth: int, lim: Limits)
    requires pos <= |buf| && nodes <= lim.maxNodes
    ensures SoundChildren(buf, pos, nodes, depth, lim, ParseChildren(buf, pos, nodes, depth, lim))
    decreases |buf| - pos, 1
  {
    hide ParseNode, Encode, WellFormed, Count, NestsWithin, Encodable;
    var r := ParseChildren(buf, pos, nodes, depth, lim);
    if pos < |buf| && r.Done? {
      var v := ParseNode(buf, pos, nodes, depth, lim);
      NodeSound(buf, pos, nodes, depth, lim);
      ChildrenSound(buf, v.pos, v.used, depth, lim);
      var rest := ParseChildren(buf, v.pos, v.used, depth, lim);
      assert r.value[1..] == rest.value;
      assert buf[pos..] == buf[pos..v.pos] + buf[v.pos..];
    }
  }

  lemma {:induction false} NodeComplete(v: Node, buf: seq<Byte>, pos: nat, nodes: nat, depth: int, lim: Limits)
    requires WellFormed(v) && At(buf, pos, Encode(v))
    requires NestsWithin(v, lim.maxDepth - depth) && nodes + Count(v) <= lim.maxNodes
    ensures ParseNode(buf, pos, nodes, depth, lim) == Done(v, pos + |Encode(v)|, nodes + Count(v))
    decreases v, 1
  {
    hide ParseHeader, ParseChildren, EncodeAll, TagBytes, LengthBytes;
    HeaderComplete(buf, pos, v.tag, v.content);
    if v.tag.constructed {
      assert v.content[0..] == v.content;
      ChildrenComplete(v.children, v.content, 0, nodes + 1, depth + 1, lim);
    }
  }

  lemma {:induction false} ChildrenComplete(vs: seq<Node>, buf: seq<Byte>, pos: nat, nodes: nat, depth: int,
      lim: Limits)
    requires pos <= |buf| && AllWellFormed(vs) && buf[pos..] == EncodeAll(vs)
    requires AllNestWithin(vs, lim.maxDepth - depth) && nodes + CountAll(vs) <= lim.maxNodes
    ensures ParseChildren(buf, pos, nodes, depth, lim) == Done(vs, |buf|, nodes + CountAll(vs))
    decreases vs, 0
  {
    hide ParseNode, Encode, WellFormed, Count, NestsWithin;
    if vs == [] {
      assert |buf[pos..]| == 0;
    } else {
      var e := Encode(vs[0]);
      assert |e| >= 2 && |buf[pos..]| == |e| + |EncodeAll(vs[1..])|;
      assert buf[pos..pos + |e|] == buf[pos..][..|e|] == e;
      assert buf[pos + |e|..] == buf[pos..][|e|..] == EncodeAll(vs[1..]);
      NodeComplete(vs[0], buf, pos, nodes, depth, lim);
      ChildrenComplete(vs[1..], buf, pos + |e|, nodes + Count(vs[0]), depth, lim);
      assert [vs[0]] + vs[1..] == vs;
    }
  }

  /** Exact inverse: the parser returns `v` exactly when the input is the DER encoding of `v`, within limits. */
  lemma ParseExact(input: seq<Byte>, lim: Limits, v: Node)
    ensures Parse(input, lim) == Ok(v) <==> Encodes(input, v, lim)
  {
    hide ParseNode, Encode, WellFormed;
    assert input[0..|input|] == input;
    if Parse(input, lim) == Ok(v) { NodeSound(input, 0, 0, 0, lim); }
    if Encodes(input, v, lim) { NodeComplete(v, input, 0, 0, 0, lim); }
  }

  /** An acceptable tree ends at offset `k`. */
  ghost predicate PrefixEncodes(input: seq<Byte>, k: nat, v: Node, lim: Limits) {
    && k <= |input| && WellFormed(v) && input[..k] == Encode(v)
    && NestsWithin(v, lim.maxDepth) && Count(v) <= lim.maxNodes
  }

  /** Two refusals say exactly this: the input is too long, or a whole tree is followed by more. */
  lemma RefusalsSay(input: seq<Byte>, lim: Limits)
    ensures Parse(input, lim) == Err(InputTooLarge) <==> |input| > lim.maxBytes
    ensures Parse(input, lim) == Err(TrailingBytes) <==>
            |input| <= lim.maxBytes && exists k: nat, v :: k < |input| && PrefixEncodes(input, k, v, lim)
  {
    hide ParseNode, WellFormed, Encode;
    var r := ParseNode(input, 0, 0, 0, lim);
    OwnErrors(input, 0, 0, 0, lim);
    NodeSound(input, 0, 0, 0, lim);
    if r.Done? {
      assert input[0..r.pos] == input[..r.pos];
      assert PrefixEncodes(input, r.pos, r.value, lim);
    }
    forall k: nat, v | PrefixEncodes(input, k, v, lim) ensures r == Done(v, k, Count(v)) {
      assert input[0..k] == input[..k];
      NodeComplete(v, input, 0, 0, 0, lim);
    }
  }

  /** The reader itself never gives those two. */
  lemma {:induction false} OwnErrors(buf: seq<Byte>, pos: nat, nodes: nat, depth: int, lim: Limits)
    requires pos <= |buf|
    ensures var r := ParseNode(buf, pos, nodes, depth, lim);
      r.Failed? ==> !r.error.InputTooLarge? && !r.error.TrailingBytes?
    decreases |buf| - pos, 0
  {
    hide ParseChildren, ScanNumber, Radix.Value;
    var h := ParseHeader(buf, pos);
    if h.Ok? && depth <= lim.maxDepth && nodes + 1 <= lim.maxNodes {
      var (_, p, n) := h.value;
      OwnChildErrors(buf[p..p + n], 0, nodes + 1, depth + 1, lim);
    }
  }

  lemma {:induction false} OwnChildErrors(buf: seq<Byte>, pos: nat, nodes: nat, depth: int, lim: Limits)
    requires pos <= |buf|
    ensures var r := ParseChildren(buf, pos, nodes, depth, lim);
      r.Failed? ==> !r.error.InputTooLarge? && !r.error.TrailingBytes?
    decreases |buf| - pos, 1
  {
    hide ParseNode;
    if pos < |buf| {
      OwnErrors(buf, pos, nodes, depth, lim);
      var v := ParseNode(buf, pos, nodes, depth, lim);
      if v.Done? { OwnChildErrors(buf, v.pos, v.used, depth, lim); }
    }
  }

  lemma {:induction false} NestingBelowCount(v: Node, levels: int)
    requires Count(v) <= levels + 1
    ensures NestsWithin(v, levels)
    decreases v, 1
  {
    AllNestingBelowCount(v.children, levels - 1);
  }

  lemma {:induction false} AllNestingBelowCount(vs: seq<Node>, levels: int)
    requires CountAll(vs) <= levels + 1
    ensures AllNestWithin(vs, levels)
    decreases vs, 0
  {
    if vs != [] {
      NestingBelowCount(vs[0], levels);
      AllNestingBelowCount(vs[1..], levels);
    }
  }

  /** The encoding of a tree is its own: no encoding is a prefix of another, and distinct trees encode differently. */
  lemma EncodePrefixFree(v: Node, w: Node)
    requires WellFormed(v) && WellFormed(w) && Encode(v) <= Encode(w)
    ensures v == w
  {
    hide ParseNode, WellFormed, Encode;
    var lim := Limits(Count(v) + Count(w), Count(v) + Count(w), 0);
    NestingBelowCount(v, lim.maxDepth);
    NestingBelowCount(w, lim.maxDepth);
    var buf := Encode(w);
    assert At(buf, 0, Encode(v)) && At(buf, 0, Encode(w));
    NodeComplete(v, buf, 0, 0, 0, lim);
    NodeComplete(w, buf, 0, 0, 0, lim);
  }

  // ------------------------------------------------------------- the reader

  class DerReader {
    const buf: seq<Byte>
    const limits: Limits
    var pos: nat
    var nodes: nat

    constructor (buf: seq<Byte>, limits: Limits)
      ensures this.buf == buf && this.limits == limits && pos == 0 && nodes == 0
    {
      this.buf, this.limits, pos, nodes := buf, limits, 0, 0;
    }

    method ReadByte() returns (r: Result<Byte, Error>)
      requires pos <= |buf|
      modifies this`pos
      ensures old(pos) == |buf| ==> r == Err(UnexpectedEnd) && pos == old(pos)
      ensures old(pos) < |buf| ==> r == Ok(buf[old(pos)]) && pos == old(pos) + 1
    {
      if pos >= |buf| { return Err(UnexpectedEnd); }
      pos := pos + 1;
      return Ok(buf[pos - 1]);
    }

    /** The high-tag-number loop. Its cap on the octet count is never what stops it: the cap on the value is tighter. */
    method ReadTagNumber(first: Byte) returns (r: Result<nat, Error>)
      requires pos <= |buf|
      modifies this`pos
      ensures var spec := ParseTagNumber(buf, old(pos), first);
              match r case Ok(n) => spec == Ok((n, pos)) case Err(e) => spec == Err(e) && pos <= |buf|
    {
      if first % 32 != 31 { return Ok(first % 32); }
      var value, octets := 0, 0;
      while true
        invariant old(pos) <= pos <= |buf| && octets == pos - old(pos) <= 4 && value <= MAX_TAG
        invariant octets == 0 ==> value == 0
        invariant octets >= 1 ==> Radix.Pow(128, octets - 1) <= value
        invariant octets >= 1 ==> ScanNumber(buf, old(pos), MAX_TAG) == Scan(buf, pos, value, MAX_TAG)
        decreases |buf| - pos
      {
        var b := ReadByte();
        if b.Err? { return Err(b.error); }
        if octets == 0 && b.value == 0x80 { return Err(NonMinimalTag); }
        value := value * 128 + b.value % 128;
        octets := octets + 1;
        if value > MAX_TAG { return Err(TagTooLarge); }
        if b.value < 128 { break; }
        assert Radix.Pow(128, 0) == 1 && Radix.Pow(128, 4) == MAX_TAG + 1;
        assert octets >= 2 ==> Radix.Pow(128, octets - 1) == 128 * Radix.Pow(128, octets - 2);
        if octets > 4 { return Err(TagTooLong); }
      }
      if value < 31 { return Err(ShortTagAvailable); }
      return Ok(value);
    }

    method ReadLength() returns (r: Result<nat, Error>)
      requires pos <= |buf|
      modifies this`pos
      ensures var spec := ParseLength(buf, old(pos));
              match r case Ok(n) => spec == Ok((n, pos)) case Err(e) => spec == Err(e) && pos <= |buf|
    {
      var first := ReadByte();
      if first.Err? { return Err(first.error); }
      if first.value == 0x80 { return Err(IndefiniteLength); }
      if first.value < 0x80 { return Ok(first.value); }
      var count := first.value - 128;
      if count > 4 { return Err(LengthTooLong); }
      ghost var start := pos;
      var bytes: seq<Byte> := [];
      for i := 0 to count
        invariant pos == start + i <= |buf| && bytes == buf[start..pos]
      {
        var b := ReadByte();
        if b.Err? { return Err(b.error); }
        bytes := bytes + [b.value];
      }
      if bytes[0] == 0 { return Err(LeadingZeroLength); }
      var value: nat := 0;
      for i := 0 to |bytes|
        invariant value == Radix.Value(256, bytes[..i])
      {
        value := value * 256 + bytes[i];
        assert bytes[..i + 1][..i] == bytes[..i];
      }
      assert bytes[..|bytes|] == bytes;
      if value < 128 { return Err(ShortLengthAvailable); }
      return Ok(value);
    }

    ghost predicate Refines<T>(r: Result<T, Error>, spec: Parsed<T, Error>)
      reads this
    {
      match r case Ok(v) => spec == Done(v, pos, nodes) case Err(e) => spec == Failed(e)
    }

    /** Children are read by a reader of their own over the parent's content; the node counter travels with it. */
    method ReadNode(depth: int) returns (r: Result<Node, Error>)
      requires pos <= |buf|
      modifies this
      ensures Refines(r, ParseNode(buf, old(pos), old(nodes), depth, limits))
      decreases |buf| - pos, 0
    {
      hide Radix.Value, Radix.Pow, Scan, ScanNumber, ParseChildren;
      if depth > limits.maxDepth { return Err(TooDeep); }
      nodes := nodes + 1;
      if nodes > limits.maxNodes { return Err(TooManyNodes); }
      var identifier := ReadByte();
      if identifier.Err? { return Err(identifier.error); }
      var number := ReadTagNumber(identifier.value);
      if number.Err? { return Err(number.error); }
      var tag := Tag(identifier.value / 64, identifier.value / 32 % 2 == 1, number.value);
      var length := ReadLength();
      if length.Err? { return Err(length.error); }
      if length.value > |buf| - pos { return Err(LengthExceedsInput); }
      var content := buf[pos..pos + length.value];
      pos := pos + length.value;
      assert ParseHeader(buf, old(pos)) == Ok((tag, pos - |content|, |content|));
      hide ParseHeader, ParseTagNumber, ParseLength;
      if !tag.constructed { return Ok(Node(tag, content, [])); }
      var children := ReadChildren(content, depth);
      if children.Err? { return Err(children.error); }
      return Ok(Node(tag, content, children.value));
    }

    /** The loop over a constructed node's content. */
    method ReadChildren(content: seq<Byte>, depth: int) returns (r: Result<seq<Node>, Error>)
      modifies this`nodes
      ensures match r
              case Ok(vs) => ParseChildren(content, 0, old(nodes), depth + 1, limits) == Done(vs, |content|, nodes)
              case Err(e) => ParseChildren(content, 0, old(nodes), depth + 1, limits) == Failed(e)
      decreases |content|, 1
    {
      hide ParseNode;
      var inner := new DerReader(content, limits);
      inner.nodes := nodes;
      var children: seq<Node> := [];
      ghost var spec := ParseChildren(content, 0, nodes, depth + 1, limits);
      PrefixedNone(spec);
      while inner.pos < |content|
        invariant fresh(inner) && inner.buf == content && inner.limits == limits
        invariant inner.pos <= |content| && inner.nodes == nodes
        invariant spec == Prefixed(children, ParseChildren(content, inner.pos, inner.nodes, depth + 1, limits))
        decreases |content| - inner.pos
      {
        var child := inner.ReadNode(depth + 1);
        if child.Err? { return Err(child.error); }
        PrefixedStep(children, [child.value], ParseChildren(content, inner.pos, inner.nodes, depth + 1, limits));
        children := children + [child.value];
        nodes := inner.nodes;
      }
      assert children + [] == children;
      return Ok(children);
    }
  }

  /** `parseDer`: accepts exactly the DER encodings within limits. */
  method ParseDer(input: seq<Byte>, limits: Limits) returns (r: Result<Node, Error>)
    ensures forall v :: r == Ok(v) <==> Encodes(input, v, limits)
  {
    if |input| > limits.maxBytes {
      r := Err(InputTooLarge);
    } else {
      var reader := new DerReader(input, limits);
      r := reader.ReadNode(0);
      if r.Ok? && reader.pos != |input| { r := Err(TrailingBytes); }
    }
    assert r == Parse(input, limits);
    forall v ensures r == Ok(v) <==> Encodes(input, v, limits) { ParseExact(input, limits, v); }
  }
}
