/**
 * Positional notation. Every reader in this project accumulates `value * base + digit` from the most
 * significant digit; this module relates that loop to fixed-width and minimal-width digit strings.
 */
module Radix {

  function Pow(base: nat, e: nat): nat {
    if e == 0 then 1 else base * Pow(base, e - 1)
  }

  predicate Digits(base: nat, ds: seq<nat>) {
    forall i :: 0 <= i < |ds| ==> ds[i] < base
  }

  /** The number a most-significant-first digit string denotes. */
  function Value(base: nat, ds: seq<nat>): nat {
    if ds == [] then 0 else Value(base, ds[..|ds| - 1]) * base + ds[|ds| - 1]
  }

  /** `n` modulo `base^width`, as exactly `width` digits. */
  function Fixed(base: nat, n: nat, width: nat): (ds: seq<nat>)
    requires base >= 2
    ensures |ds| == width && Digits(base, ds)
    decreases width
  {
    if width == 0 then [] else Fixed(base, n / base, width - 1) + [n % base]
  }

  /** `n` in as few digits as possible (one digit for zero). */
  function Minimal(base: nat, n: nat): (ds: seq<nat>)
    requires base >= 2
    ensures |ds| >= 1 && Digits(base, ds)
    decreases n
  {
    if n < base then [n] else QuotientSmaller(base, n); Minimal(base, n / base) + [n % base]
  }

  /** No leading zero, except in the one-digit zero itself. */
  predicate NoLeadingZero(ds: seq<nat>) {
    |ds| == 1 || (|ds| > 1 && ds[0] != 0)
  }

  lemma {:induction false} MulMonotone(a: nat, b: nat, c: nat)
    requires a <= b
    ensures a * c <= b * c
    decreases c
  {
    if c > 0 {
      MulMonotone(a, b, c - 1);
      assert a * c == a * (c - 1) + a && b * c == b * (c - 1) + b;
    }
  }

  lemma QuotientSmaller(base: nat, n: nat)
    requires base >= 2 && n >= base
    ensures 0 < n / base < n
  {
    var q, d := n / base, n % base;
    assert n == q * base + d;
    assert base * q == q * base;
    if q > 0 { MulMonotone(2, base, q); }
  }

  lemma QuotientBelow(base: nat, n: nat, bound: nat)
    requires base >= 2 && n < base * bound
    ensures n / base < bound
  {
    var q := n / base;
    assert n == q * base + n % base;
    if bound <= q { MulMonotone(bound, q, base); }
  }

  lemma DivUnique(base: nat, q: nat, d: nat)
    requires base >= 2 && d < base
    ensures (q * base + d) / base == q && (q * base + d) % base == d
  {
    var n := q * base + d;
    var q', d' := n / base, n % base;
    assert n == q' * base + d';
    assert (q' + 1) * base == q' * base + base && (q + 1) * base == q * base + base;
    if q > q' { MulMonotone(q' + 1, q, base); }
    if q < q' { MulMonotone(q + 1, q', base); }
  }

  lemma {:induction false} PowPositive(base: nat, e: nat)
    requires base >= 1
    ensures Pow(base, e) >= 1
  {
    if e > 0 { PowPositive(base, e - 1); }
  }

  lemma {:induction false} PowMonotone(base: nat, e: nat, f: nat)
    requires base >= 1 && e <= f
    ensures Pow(base, e) <= Pow(base, f)
    decreases f
  {
    if e < f { PowMonotone(base, e, f - 1); PowPositive(base, f - 1); }
  }

  lemma {:induction false} ValueBelow(base: nat, ds: seq<nat>)
    requires base >= 2 && Digits(base, ds)
    ensures Value(base, ds) < Pow(base, |ds|)
  {
    if ds != [] {
      var front := ds[..|ds| - 1];
      ValueBelow(base, front);
      var v, p := Value(base, front), Pow(base, |front|);
      MulMonotone(v + 1, p, base);
      assert (v + 1) * base == v * base + base;
      assert Pow(base, |ds|) == base * p == p * base;
    }
  }

  /** A nonzero leading digit bounds the value from below. */
  lemma {:induction false} ValueAtLeast(base: nat, ds: seq<nat>)
    requires base >= 2 && |ds| >= 1 && ds[0] != 0
    ensures Pow(base, |ds| - 1) <= Value(base, ds)
  {
    if |ds| > 1 {
      var front := ds[..|ds| - 1];
      ValueAtLeast(base, front);
      MulMonotone(Pow(base, |front| - 1), Value(base, front), base);
    } else {
      assert ds[..0] == [];
    }
  }

  lemma {:induction false} FixedOfValue(base: nat, ds: seq<nat>)
    requires base >= 2 && Digits(base, ds)
    ensures Fixed(base, Value(base, ds), |ds|) == ds
  {
    if ds != [] {
      var front := ds[..|ds| - 1];
      FixedOfValue(base, front);
      DivUnique(base, Value(base, front), ds[|ds| - 1]);
      assert ds == front + [ds[|ds| - 1]];
    }
  }

  lemma FixedSplit(base: nat, n: nat, width: nat)
    requires base >= 2 && width > 0
    ensures var ds := Fixed(base, n, width);
            ds[..width - 1] == Fixed(base, n / base, width - 1) && ds[width - 1] == n % base
  {
  }

  lemma ValueSplit(base: nat, ds: seq<nat>)
    requires ds != []
    ensures Value(base, ds) == Value(base, ds[..|ds| - 1]) * base + ds[|ds| - 1]
  {
  }

  lemma {:induction false} ValueOfFixed(base: nat, n: nat, width: nat)
    requires base >= 2 && n < Pow(base, width)
    ensures Value(base, Fixed(base, n, width)) == n
    decreases width
  {
    if width > 0 {
      var q, ds := n / base, Fixed(base, n, width);
      assert n == q * base + n % base;
      QuotientBelow(base, n, Pow(base, width - 1));
      ValueOfFixed(base, q, width - 1);
      hide Pow, Fixed, Value;
      FixedSplit(base, n, width);
      ValueSplit(base, ds);
    }
  }

  lemma MinimalSplit(base: nat, n: nat)
    requires base >= 2
    ensures n < base ==> Minimal(base, n) == [n]
    ensures n >= base ==> 0 < n / base < n && Minimal(base, n) == Minimal(base, n / base) + [n % base]
  {
    if n >= base { QuotientSmaller(base, n); }
  }

  lemma Division(base: nat, n: nat)
    requires base >= 1
    ensures n == n / base * base + n % base
  {
  }

  lemma {:induction false} ValueOfMinimal(base: nat, n: nat)
    requires base >= 2
    ensures Value(base, Minimal(base, n)) == n && NoLeadingZero(Minimal(base, n))
    decreases n
  {
    hide Minimal, Value;
    MinimalSplit(base, n);
    if n < base {
      ValueOne(base, n);
    } else {
      var q, d := n / base, n % base;
      ValueOfMinimal(base, q);
      Division(base, n);
      var front, ds := Minimal(base, q), Minimal(base, q) + [d];
      assert ds[..|ds| - 1] == front && ds[|ds| - 1] == d;
      ValueSplit(base, ds);
      if |front| == 1 {
        ValueOne(base, front[0]);
        assert front == [front[0]];
      }
    }
  }

  lemma ValueOne(base: nat, d: nat)
    ensures Value(base, [d]) == d
  {
    assert [d][..0] == [];
  }

  /** The minimal digit string is the only one without a leading zero. */
  lemma {:induction false} MinimalOfValue(base: nat, ds: seq<nat>)
    requires base >= 2 && Digits(base, ds) && NoLeadingZero(ds)
    ensures Minimal(base, Value(base, ds)) == ds
  {
    var front, last := ds[..|ds| - 1], ds[|ds| - 1];
    assert ds == front + [last];
    if |ds| == 1 {
      assert front == [];
    } else {
      ValueAtLeast(base, front);
      PowPositive(base, |front| - 1);
      MinimalOfValue(base, front);
      DivUnique(base, Value(base, front), last);
      MulMonotone(1, Value(base, front), base);
    }
  }

  /** `n` has at most `width` minimal digits exactly when it is below `base^width`. */
  lemma MinimalLength(base: nat, n: nat, width: nat)
    requires base >= 2 && width >= 1
    ensures |Minimal(base, n)| <= width <==> n < Pow(base, width)
  {
    var ds := Minimal(base, n);
    ValueOfMinimal(base, n);
    if |ds| <= width {
      ValueBelow(base, ds);
      PowMonotone(base, |ds|, width);
    } else {
      ValueAtLeast(base, ds);
      PowMonotone(base, width, |ds| - 1);
    }
  }
}
