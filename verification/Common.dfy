/** Shared result types, bytes, and the "these bytes are here" view of a buffer. */
module Common {
  import Radix

  datatype Option<+T> = None | Some(value: T)

  datatype Result<+T, +E> = Ok(value: T) | Err(error: E)

  type Byte = n: int | 0 <= n < 256

  /** 2^53 - 1 */
  const MAX_SAFE_INTEGER: int := 0x1F_FFFF_FFFF_FFFF

  function Min(a: nat, b: nat): nat { if a <= b then a else b }

  lemma SamePrefix<T>(a: seq<T>, x: seq<T>, y: seq<T>)
    ensures a + x == a + y <==> x == y
  {
    assert x == (a + x)[|a|..] && y == (a + y)[|a|..];
  }

  /** Big-endian, in exactly `width` octets. */
  function FixedOctets(n: nat, width: nat): (r: seq<Byte>)
    ensures |r| == width && r == Radix.Fixed(256, n, width)
  {
    var ds := Radix.Fixed(256, n, width);
    seq(width, i requires 0 <= i < width => ds[i])
  }

  /** Big-endian, in as few octets as possible. */
  function Octets(n: nat): (r: seq<Byte>)
    ensures r == Radix.Minimal(256, n) && |r| >= 1
  {
    var ds := Radix.Minimal(256, n);
    seq(|ds|, i requires 0 <= i < |ds| => ds[i])
  }

  /** The bytes of `piece` occur in `buf` at offset `pos`. */
  predicate At<T(==)>(buf: seq<T>, pos: nat, piece: seq<T>) {
    pos + |piece| <= |buf| && buf[pos..pos + |piece|] == piece
  }

  lemma AtConcat<T>(buf: seq<T>, pos: nat, left: seq<T>, right: seq<T>)
    ensures At(buf, pos, left + right) <==> At(buf, pos, left) && At(buf, pos + |left|, right)
  {
    var n, m := |left|, |right|;
    if At(buf, pos, left + right) {
      assert buf[pos..pos + n] == (left + right)[..n];
      assert buf[pos + n..pos + n + m] == (left + right)[n..];
    }
    if At(buf, pos, left) && At(buf, pos + n, right) {
      assert buf[pos..pos + n + m] == buf[pos..pos + n] + buf[pos + n..pos + n + m];
    }
  }

  /** What a reader returns: a value, the cursor after it and its running count of elements; or why it stopped. */
  datatype Parsed<+T, +E> = Done(value: T, pos: nat, used: nat) | Failed(error: E)

  /** The result of a loop that had already collected `front`. */
  function Prefixed<T, E>(front: seq<T>, r: Parsed<seq<T>, E>): Parsed<seq<T>, E> {
    if r.Failed? then r else Done(front + r.value, r.pos, r.used)
  }

  lemma PrefixedNone<T, E>(r: Parsed<seq<T>, E>)
    ensures Prefixed([], r) == r
  {
    if r.Done? { assert [] + r.value == r.value; }
  }

  lemma PrefixedStep<T, E>(front: seq<T>, next: seq<T>, rest: Parsed<seq<T>, E>)
    ensures rest.Done? ==> Prefixed(front + next, rest) == Prefixed(front, Done(next + rest.value, rest.pos, rest.used))
  {
    if rest.Done? { assert front + next + rest.value == front + (next + rest.value); }
  }
}
