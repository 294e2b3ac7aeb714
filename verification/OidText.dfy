/**
 * The dotted text `derOid` of packages/attestation/src/der.ts returns, and which contents share one. The first two arcs
 * go through doubles; the exact set of first subidentifiers that lose their identity there is computed.
 */
module OidText {
  import opened Common
  import opened Base128
  import opened DerScalars
  import Radix

  // ------------------------------------------------------- decimal arcs, joined

  function Decimal(n: nat): (t: string)
    ensures |t| == |Radix.Minimal(10, n)| >= 1 && forall i :: 0 <= i < |t| ==> t[i] != '.'
  {
    var ds := Radix.Minimal(10, n);
    seq(|ds|, i requires 0 <= i < |ds| => '0' + ds[i] as char)
  }

  function Dotted(arcs: seq<nat>): string {
    if arcs == [] then "" else if |arcs| == 1 then Decimal(arcs[0]) else Decimal(arcs[0]) + "." + Dotted(arcs[1..])
  }

  /** A numeral reads as its number, and does not begin with a needless zero. */
  lemma DecimalReads(n: nat)
    ensures var t := Decimal(n);
      && (forall i :: 0 <= i < |t| ==> '0' <= t[i] <= '9') && (|t| > 1 ==> t[0] != '0')
      && Radix.Value(10, seq(|t|, i requires 0 <= i < |t| && t[i] >= '0' => (t[i] - '0') as int)) == n
  {
    var t, ds := Decimal(n), Radix.Minimal(10, n);
    Radix.ValueOfMinimal(10, n);
    assert seq(|t|, i requires 0 <= i < |t| && t[i] >= '0' => (t[i] - '0') as int) == ds;
  }

  /** A text cut at its points. */
  function Parts(t: string): (r: seq<string>)
    ensures r != []
  {
    if t == "" then [""]
    else
      var rest := Parts(t[1..]);
      if t[0] == '.' then [""] + rest else [[t[0]] + rest[0]] + rest[1..]
  }

  lemma {:induction false} PartsJoin(a: string, x: string)
    requires '.' !in a
    ensures x == "" ==> Parts(a + x) == [a]
    ensures x != "" && x[0] == '.' ==> Parts(a + x) == [a] + Parts(x[1..])
  {
    if a == "" {
      assert a + x == x;
    } else {
      assert (a + x)[1..] == a[1..] + x && a == [a[0]] + a[1..];
      PartsJoin(a[1..], x);
    }
  }

  /** A dotted text, cut at its points, is the numerals of its arcs in order. */
  lemma {:induction false} DottedParts(arcs: seq<nat>)
    requires arcs != []
    ensures Parts(Dotted(arcs)) == seq(|arcs|, i requires 0 <= i < |arcs| => Decimal(arcs[i]))
  {
    hide Decimal, Parts;
    var rest := DottedRest(arcs[1..]);
    DottedSplit(arcs);
    PartsJoin(Decimal(arcs[0]), rest);
    if |arcs| > 1 {
      DottedParts(arcs[1..]);
      assert rest[1..] == Dotted(arcs[1..]);
    }
  }

  lemma DecimalInjective(n: nat, m: nat)
    requires Decimal(n) == Decimal(m)
    ensures n == m
  {
    var ds, es := Radix.Minimal(10, n), Radix.Minimal(10, m);
    assert forall i :: 0 <= i < |ds| ==> ds[i] == (Decimal(n)[i] - '0') as nat == es[i];
    assert ds == es;
    Radix.ValueOfMinimal(10, n);
    Radix.ValueOfMinimal(10, m);
  }

  /** What follows a decimal number in a dotted text: nothing, or a point and more. */
  lemma SplitAtPoint(a: string, x: string, b: string, y: string)
    requires '.' !in a && '.' !in b && (x == "" || x[0] == '.') && (y == "" || y[0] == '.') && a + x == b + y
    ensures a == b && x == y
  {
    var u := a + x;
    assert forall i :: 0 <= i < |a| ==> u[i] != '.';
    assert forall i :: 0 <= i < |b| ==> u[i] != '.';
    assert |a| < |u| ==> u[|a|] == x[0];
    assert |b| < |u| ==> u[|b|] == y[0];
    assert |a| == |b|;
    assert a == u[..|a|] && b == u[..|b|] && x == u[|a|..] && y == u[|b|..];
  }

  function DottedRest(arcs: seq<nat>): string { if arcs == [] then "" else "." + Dotted(arcs) }

  lemma DottedSplit(arcs: seq<nat>)
    requires arcs != []
    ensures Dotted(arcs) == Decimal(arcs[0]) + DottedRest(arcs[1..])
  {
    if |arcs| == 1 { assert Decimal(arcs[0]) + "" == Decimal(arcs[0]); }
  }

  lemma {:induction false} DottedInjective(a: seq<nat>, b: seq<nat>)
    requires Dotted(a) == Dotted(b)
    ensures a == b
  {
    hide Decimal;
    if a != [] && b != [] {
      DottedSplit(a);
      DottedSplit(b);
      SplitAtPoint(Decimal(a[0]), DottedRest(a[1..]), Decimal(b[0]), DottedRest(b[1..]));
      DecimalInjective(a[0], b[0]);
      if a[1..] != [] && b[1..] != [] {
        assert DottedRest(a[1..])[1..] == Dotted(a[1..]) && DottedRest(b[1..])[1..] == Dotted(b[1..]);
        DottedInjective(a[1..], b[1..]);
      }
      assert a == [a[0]] + a[1..] && b == [b[0]] + b[1..];
    } else if a != [] {
      DottedSplit(a);
    } else if b != [] {
      DottedSplit(b);
    }
  }

  // ------------------------------------------------------------ the whole text

  /** `String` on a double that holds an integer. */
  type Printer = nat -> string

  /** Digits, or from 10^21 on a mantissa with an exponent: the only point stands before the only `e`. */
  predicate PlainOrExponent(t: string) {
    ('.' !in t && 'e' !in t) || exists k :: 0 <= k < |t| && ExponentAt(t, k)
  }

  predicate ExponentAt(t: string, k: int)
    requires 0 <= k < |t|
  {
    t[k] == 'e' && 'e' !in t[..k] && '.' !in t[k..]
  }

  /** What ECMA-262 promises of it: safe integers in full, distinct doubles apart, one of the two shapes. */
  ghost predicate PrintsNumbers(show: Printer) {
    && (forall n: nat :: n <= MAX_SAFE_INTEGER ==> show(n) == Decimal(n))
    && (forall n: nat, m: nat :: show(n) == show(m) && ToNumber(n) == n && ToNumber(m) == m ==> n == m)
    && (forall n: nat :: PlainOrExponent(show(n)))
  }

  function TextOf(show: Printer, arcs: seq<nat>): string
    requires |arcs| >= 2
  {
    show(arcs[0]) + ("." + (show(arcs[1]) + DottedRest(arcs[2..])))
  }

  /** While the first two arcs are safe integers, as for every safe first subidentifier, it is the dotted text. */
  lemma SafeTextIsDotted(show: Printer, arcs: seq<nat>)
    requires PrintsNumbers(show) && |arcs| >= 2 && arcs[0] <= MAX_SAFE_INTEGER && arcs[1] <= MAX_SAFE_INTEGER
    ensures TextOf(show, arcs) == Dotted(arcs)
  {
    hide Decimal;
    DottedSplit(arcs);
    DottedSplit(arcs[1..]);
    assert arcs[1..][1..] == arcs[2..];
  }

  /** The subidentifiers after the first. */
  function OtherArcs(bs: seq<Byte>): seq<nat> {
    var r := Subids(bs, 0);
    if r.Ok? && r.value != [] then r.value[1..] else []
  }

  lemma Accepted(bs: seq<Byte>)
    requires DecodeOid(bs).Ok?
    ensures DecodeOid(bs).value == FirstArcs(FirstSubid(bs)) + OtherArcs(bs)
    ensures FirstSubid(bs) <= MAX_ARC && Bounded(OtherArcs(bs)) && bs == GroupsAll([FirstSubid(bs)] + OtherArcs(bs))
  {
    hide FirstArcs, Groups;
    assert bs[0..] == bs;
    SubidsSound(bs, 0);
    var ss := Subids(bs, 0).value;
    assert ss != [];
    assert ss == [ss[0]] + ss[1..];
  }

  lemma {:induction false} NoExponent(arcs: seq<nat>)
    ensures 'e' !in Dotted(arcs) && 'e' !in DottedRest(arcs)
  {
    if arcs != [] {
      NoExponent(arcs[1..]);
      DottedSplit(arcs);
      DecimalDigits(arcs[0]);
    }
  }

  lemma DecimalDigits(n: nat)
    ensures 'e' !in Decimal(n) && '.' !in Decimal(n)
  {
    assert forall i :: 0 <= i < |Decimal(n)| ==> '0' <= Decimal(n)[i] <= '9';
  }

  /** A number and what follows it, cut apart: at the point after it, or at the point after its exponent. */
  lemma SplitAfterNumber(a: string, x: string, b: string, y: string)
    requires PlainOrExponent(a) && PlainOrExponent(b) && 'e' !in x && 'e' !in y && a + x == b + y
    requires (x == "" || x[0] == '.') && (y == "" || y[0] == '.')
    ensures a == b && x == y
  {
    hide PlainOrExponent;
    var u := a + x;
    if 'e' in u {
      var i := ExponentOf(a, x);
      var j := ExponentOf(b, y);
      FirstExponent(a, i, b, j, u);
      assert u[i..] == a[i..] + x && u[i..] == b[i..] + y;
      SplitAtPoint(a[i..], x, b[i..], y);
      assert a == a[..i] + a[i..] && b == b[..i] + b[i..];
    } else {
      NoneIn(a, x);
      NoneIn(b, y);
      SplitAtPoint(a, x, b, y);
    }
  }

  lemma ExponentOf(a: string, x: string) returns (k: nat)
    requires PlainOrExponent(a) && 'e' !in x && 'e' in a + x
    ensures k < |a| && ExponentAt(a, k)
  {
    k :| 0 <= k < |a| && ExponentAt(a, k);
  }

  lemma NoneIn(a: string, x: string)
    requires PlainOrExponent(a) && 'e' !in a + x
    ensures '.' !in a
  {
    assert forall k :: 0 <= k < |a| ==> a[k] == (a + x)[k] != 'e';
  }

  /** Both exponents begin at the first `e` of the common text. */
  lemma FirstExponent(a: string, i: nat, b: string, j: nat, u: string)
    requires i < |a| <= |u| && j < |b| <= |u| && u[..|a|] == a && u[..|b|] == b && ExponentAt(a, i) && ExponentAt(b, j)
    ensures i == j && a[..i] == b[..j]
  {
    assert forall k :: 0 <= k < i ==> u[k] == a[k] == a[..i][k] != 'e';
    assert forall k :: 0 <= k < j ==> u[k] == b[k] == b[..j][k] != 'e';
    assert u[i] == a[i] == 'e' && u[j] == b[j] == 'e';
    assert a[..i] == u[..i] && b[..j] == u[..j];
  }

  lemma TextInjective(show: Printer, a: seq<nat>, b: seq<nat>)
    requires PrintsNumbers(show) && |a| >= 2 && |b| >= 2 && a[0] <= 2 && b[0] <= 2 && TextOf(show, a) == TextOf(show, b)
    requires ToNumber(a[1]) == a[1] && ToNumber(b[1]) == b[1]
    ensures a == b
  {
    hide Decimal, ToNumber, PlainOrExponent;
    var x, y := show(a[1]) + DottedRest(a[2..]), show(b[1]) + DottedRest(b[2..]);
    DecimalDigits(a[0]);
    DecimalDigits(b[0]);
    SplitAtPoint(show(a[0]), "." + x, show(b[0]), "." + y);
    DecimalInjective(a[0], b[0]);
    assert x == ("." + x)[1..] && y == ("." + y)[1..];
    NoExponent(a[2..]);
    NoExponent(b[2..]);
    SplitAfterNumber(show(a[1]), DottedRest(a[2..]), show(b[1]), DottedRest(b[2..]));
    RestInjective(a[2..], b[2..]);
    assert a == [a[0], a[1]] + a[2..] && b == [b[0], b[1]] + b[2..];
  }

  lemma RestInjective(a: seq<nat>, b: seq<nat>)
    requires DottedRest(a) == DottedRest(b)
    ensures a == b
  {
    if a != [] && b != [] {
      assert DottedRest(a)[1..] == Dotted(a) && DottedRest(b)[1..] == Dotted(b);
      DottedInjective(a, b);
    }
  }

  lemma FirstArcsAreNumbers(v: nat)
    ensures |FirstArcs(v)| == 2 && FirstArcs(v)[0] <= 2 && ToNumber(FirstArcs(v)[1]) == FirstArcs(v)[1]
  {
    var w := ToNumber(v);
    Idempotent(w - 40 * (if w >= 80 then 2 else w / 40));
    hide ToNumber;
  }

  /**
   * The exact form, over all accepted contents: two have one dotted text if and only if their first subidentifiers lead
   * to the same two arcs and the other arcs agree.
   */
  lemma DottedTextsAgreeIff(show: Printer, x: seq<Byte>, y: seq<Byte>)
    requires PrintsNumbers(show) && DecodeOid(x).Ok? && DecodeOid(y).Ok?
    ensures |DecodeOid(x).value| >= 2 && |DecodeOid(y).value| >= 2
    ensures TextOf(show, DecodeOid(x).value) == TextOf(show, DecodeOid(y).value) <==>
            FirstArcs(FirstSubid(x)) == FirstArcs(FirstSubid(y)) && OtherArcs(x) == OtherArcs(y)
  {
    hide DecodeOid, FirstArcs, FirstSubid, OtherArcs, TextOf, PrintsNumbers, GroupsAll, ToNumber;
    Accepted(x);
    Accepted(y);
    FirstArcsAreNumbers(FirstSubid(x));
    FirstArcsAreNumbers(FirstSubid(y));
    var a, b := DecodeOid(x).value, DecodeOid(y).value;
    if TextOf(show, a) == TextOf(show, b) {
      TextInjective(show, a, b);
      assert a[..2] == FirstArcs(FirstSubid(x)) && b[..2] == FirstArcs(FirstSubid(y));
      assert a[2..] == OtherArcs(x) && b[2..] == OtherArcs(y);
    }
  }

  // ------------------------------------------------------------- double rounding

  /** 2^53, from which on doubles skip integers. */
  const GAP: nat := MAX_SAFE_INTEGER + 1

  lemma DivTwice(n: nat, u: nat)
    requires u >= 1
    ensures n / (2 * u) == (n / 2) / u
  {
    var q, r, b := (n / 2) / u, (n / 2) % u, n % 2;
    assert n / 2 == q * u + r && n == 2 * (n / 2) + b;
    assert 2 * (q * u) == q * (2 * u);
    Radix.DivUnique(2 * u, q, 2 * r + b);
  }

  function Unit(n: nat): (u: nat)
    ensures u >= 1
  {
    Radix.PowPositive(2, Shift(n));
    Radix.Pow(2, Shift(n))
  }

  /** The digits a double keeps: 53 of them once any are dropped. */
  lemma {:induction false} TopBounds(n: nat)
    ensures n / Unit(n) <= MAX_SAFE_INTEGER && (n >= GAP ==> n / Unit(n) >= GAP / 2 && Unit(n) >= 2)
    ensures n >= 2 * GAP ==> Unit(n) >= 4
    decreases n
  {
    if n >= GAP {
      TopBounds(n / 2);
      DivTwice(n, Unit(n / 2));
      assert Unit(n) == 2 * Unit(n / 2);
    }
  }

  lemma Rounding(n: nat)
    ensures var u := Unit(n); var q := n / u;
      && (ToNumber(n) == q * u || ToNumber(n) == (q + 1) * u) && q * u <= ToNumber(n)
      && (n == q * u ==> ToNumber(n) == n)
  {
    var u := Unit(n);
    assert n == n / u * u + n % u;
    assert (n / u + 1) * u == n / u * u + u;
  }

  lemma NumberAtLeast(n: nat)
    ensures n >= GAP ==> ToNumber(n) >= GAP
    ensures n >= 2 * GAP ==> ToNumber(n) >= 2 * GAP
    ensures n <= MAX_SAFE_INTEGER ==> ToNumber(n) == n
  {
    hide ToNumber;
    Rounding(n);
    if n >= GAP {
      TopBounds(n);
      Radix.MulMonotone(GAP / 2, n / Unit(n), Unit(n));
      Radix.MulMonotone(if n >= 2 * GAP then 4 else 2, Unit(n), GAP / 2);
    } else {
      SafeIsExact(n);
    }
  }

  /** Half of the double nearest to `n`, between 2^53 and 2^54. */
  function HalfNumber(n: nat): nat { 2 * (n / 4) + (if n % 4 <= 1 then 0 else if n % 4 == 2 then 1 else 2) }

  /** Between 2^53 and 2^54 doubles are the even numbers, and ties go to multiples of four. */
  lemma Middle(n: nat)
    requires GAP <= n < 2 * GAP
    ensures ToNumber(n) == 2 * HalfNumber(n)
  {
    assert Shift(n / 2) == 0 && Shift(n) == 1 && Radix.Pow(2, 1) == 2;
    Quarters(n / 4, n % 4);
    assert n == 4 * (n / 4) + n % 4;
  }

  /** Halves of a number given by its quarters. */
  lemma Quarters(a: nat, b: nat)
    requires b < 4
    ensures var n := 4 * a + b;
      && n / 2 == 2 * a + b / 2 && n % 2 == b % 2 && (n / 2) % 2 == b / 2
      && n / 4 == a && n % 4 == b
  {
    Radix.DivUnique(4, a, b);
    Radix.DivUnique(2, 2 * a + b / 2, b % 2);
    Radix.DivUnique(2, a, b / 2);
  }

  /** The odd numbers next to a multiple of four round to it; nothing else rounds to the other even numbers. */
  lemma MiddleGroups(n: nat, k: nat)
    requires GAP <= n < 2 * GAP
    ensures ToNumber(n) == 4 * k + 2 <==> n == 4 * k + 2
    ensures n == 4 * k + 1 ==> ToNumber(n) == 4 * k
  {
    Middle(n);
    hide ToNumber;
    Quarters(k, 1);
    Quarters(k, 2);
    assert n == 4 * (n / 4) + n % 4;
  }

  /** `m * 2^s` with at most 53 digits in `m`, or `m == 2^53`: the unit of its rounding divides it. */
  lemma {:induction false} UnitDivides(m: nat, s: nat) returns (j: nat)
    requires m <= GAP
    ensures m * Radix.Pow(2, s) == j * Unit(m * Radix.Pow(2, s))
    decreases s
  {
    var x := m * Radix.Pow(2, s);
    if x <= MAX_SAFE_INTEGER {
      j := x;
    } else if s == 0 {
      assert Shift(x / 2) == 0 && Unit(x) == 2;
      j := x / 2;
    } else {
      var y := m * Radix.Pow(2, s - 1);
      assert x == 2 * y;
      j := UnitDivides(m, s - 1);
      assert Unit(x) == 2 * Unit(y);
      assert 2 * (j * Unit(y)) == j * (2 * Unit(y));
    }
  }

  lemma Representable(m: nat, s: nat)
    requires m <= GAP
    ensures ToNumber(m * Radix.Pow(2, s)) == m * Radix.Pow(2, s)
  {
    hide ToNumber;
    var x := m * Radix.Pow(2, s);
    var j := UnitDivides(m, s);
    if Unit(x) >= 2 { Radix.DivUnique(Unit(x), j, 0); }
    Rounding(x);
  }

  lemma Idempotent(n: nat)
    ensures ToNumber(ToNumber(n)) == ToNumber(n)
  {
    hide ToNumber;
    Rounding(n);
    TopBounds(n);
    Representable(n / Unit(n), Shift(n));
    Representable(n / Unit(n) + 1, Shift(n));
  }

  lemma {:induction false} PowSum(a: nat, b: nat)
    ensures Radix.Pow(2, a + b) == Radix.Pow(2, a) * Radix.Pow(2, b)
    decreases a
  {
    if a > 0 {
      PowSum(a - 1, b);
      assert 2 * (Radix.Pow(2, a - 1) * Radix.Pow(2, b)) == (2 * Radix.Pow(2, a - 1)) * Radix.Pow(2, b);
    }
  }

  lemma {:induction false} ShiftAtLeast(x: nat, k: nat)
    requires k >= 1 && x >= GAP * Radix.Pow(2, k - 1)
    ensures Shift(x) >= k
    decreases k
  {
    Radix.PowPositive(2, k - 1);
    Radix.MulMonotone(1, Radix.Pow(2, k - 1), GAP);
    if k > 1 { ShiftAtLeast(x / 2, k - 1); }
  }

  /** A double beyond the lower neighbour of `n` is a multiple of the unit there. */
  lemma UnitOf(n: nat, m: nat, s: nat) returns (i: nat)
    requires m <= GAP && m * Radix.Pow(2, s) >= n / Unit(n) * Unit(n)
    ensures m * Radix.Pow(2, s) == i * Unit(n)
  {
    var x, k := m * Radix.Pow(2, s), Shift(n);
    if k == 0 {
      i := x;
    } else {
      TopBounds(n);
      HalfUnits(n);
      ShiftAtLeast(x, k);
      PowSum(k, Shift(x) - k);
      var j := UnitDivides(m, s);
      i := j * Radix.Pow(2, Shift(x) - k);
      Factors(j, Unit(n), Radix.Pow(2, Shift(x) - k));
    }
  }

  lemma HalfUnits(n: nat)
    requires Shift(n) >= 1
    ensures n / Unit(n) * Unit(n) >= GAP * Radix.Pow(2, Shift(n) - 1)
  {
    TopBounds(n);
    var p := Radix.Pow(2, Shift(n) - 1);
    assert n >= GAP && Unit(n) == 2 * p;
    hide Unit, Shift, Radix.Pow;
    HalfTimesTwo(n / Unit(n), p);
  }

  lemma HalfTimesTwo(q: nat, p: nat)
    requires q >= GAP / 2
    ensures q * (2 * p) >= GAP * p
  {
    Radix.MulMonotone(GAP / 2, q, 2 * p);
  }

  lemma Factors(j: nat, u: nat, p: nat)
    ensures j * (u * p) == (j * p) * u
  {
  }

  /** No double lies strictly between the two neighbours. */
  lemma Neighbours(n: nat, m: nat, s: nat)
    requires m <= GAP
    ensures var u, x := Unit(n), m * Radix.Pow(2, s); x <= n / u * u || x >= (n / u + 1) * u
  {
    var u, q, x := Unit(n), n / Unit(n), m * Radix.Pow(2, s);
    if x >= q * u {
      var i := UnitOf(n, m, s);
      if i <= q { Radix.MulMonotone(i, q, u); } else { Radix.MulMonotone(q + 1, i, u); }
    }
  }

  function Distance(a: int, b: int): nat { if a <= b then b - a else a - b }

  /** The double `Number` makes of an integer: a significand of at most 53 bits, times a power of two. */
  predicate IsDouble(x: nat, m: nat, s: nat) { m <= GAP && x == m * Radix.Pow(2, s) }

  /** `Number` rounds to the nearest: it gives a double, and none is closer. */
  lemma NumberIsNearest(n: nat, m: nat, s: nat)
    requires m <= GAP
    ensures exists q, k :: IsDouble(ToNumber(n), q, k)
    ensures Distance(n, ToNumber(n)) <= Distance(n, m * Radix.Pow(2, s))
  {
    var u, q := Unit(n), n / Unit(n);
    TopBounds(n);
    Rounding(n);
    assert ToNumber(n) == q * u ==> IsDouble(ToNumber(n), q, Shift(n));
    assert ToNumber(n) == (q + 1) * u ==> IsDouble(ToNumber(n), q + 1, Shift(n));
    Neighbours(n, m, s);
    Closer(n);
  }

  lemma Closer(n: nat)
    ensures var u, q := Unit(n), n / Unit(n);
      && q * u <= n < (q + 1) * u
      && Distance(n, ToNumber(n)) <= n - q * u && Distance(n, ToNumber(n)) <= (q + 1) * u - n
  {
    var u := Unit(n);
    assert n == n / u * u + n % u && (n / u + 1) * u == n / u * u + u;
  }

  // ------------------------------------------------------- which arcs have a twin

  /** Another first subidentifier within the limit that reads as the same two arcs. */
  ghost predicate HasTwin(p: nat) { exists q: nat :: q != p && q <= MAX_ARC && FirstArcs(q) == FirstArcs(p) }

  predicate NoTwin(p: nat) { p < GAP || (p < 2 * GAP && p % 4 == 2) }

  /** Below 2^54 the two arcs still determine the double. */
  lemma ArcsDetermine(p: nat, q: nat)
    requires ToNumber(p) == p < 2 * GAP && FirstArcs(q) == FirstArcs(p)
    ensures ToNumber(q) == p
  {
    hide ToNumber;
    var v := ToNumber(q);
    SecondArc(p);
    SecondArc(q);
    assert FirstArcs(p)[0] == FirstArcs(q)[0] && FirstArcs(p)[1] == FirstArcs(q)[1];
  }

  lemma EvenExact(w: nat, h: nat)
    requires w == 2 * h && GAP <= w < 2 * GAP
    ensures ToNumber(w) == w
  {
    Middle(w);
    hide ToNumber;
    assert h == 2 * (h / 2) + h % 2;
    Quarters(h / 2, 2 * (h % 2));
  }

  lemma SmallDifference(v: nat, h: nat)
    requires v < 2 * GAP && (v >= GAP ==> v == 2 * h)
    ensures ToNumber(v - 40 * (if v >= 80 then 2 else v / 40)) == v - 40 * (if v >= 80 then 2 else v / 40)
  {
    hide ToNumber;
    var w := v - 40 * (if v >= 80 then 2 else v / 40);
    if w >= GAP { EvenExact(w, h - 40); } else { SafeIsExact(w); }
  }

  lemma LargeDifference(v: nat)
    requires v >= 2 * GAP
    ensures ToNumber(v - 80) >= 2 * GAP - 80
  {
    hide ToNumber;
    NumberAtLeast(v - 80);
    if v - 80 < 2 * GAP { Middle(v - 80); }
  }

  lemma SecondArc(q: nat)
    ensures var v := ToNumber(q); v < 2 * GAP ==> FirstArcs(q)[1] == v - 40 * FirstArcs(q)[0]
    ensures var v := ToNumber(q); v >= 2 * GAP ==> FirstArcs(q)[1] >= 2 * GAP - 80 && FirstArcs(q)[0] == 2
  {
    hide ToNumber;
    var v := ToNumber(q);
    NumberAtLeast(q);
    if v < 2 * GAP {
      if q >= GAP { Middle(q); }
      SmallDifference(v, HalfNumber(q));
    } else {
      LargeDifference(v);
    }
  }

  lemma WithoutTwin(p: nat, q: nat)
    requires NoTwin(p) && FirstArcs(q) == FirstArcs(p)
    ensures q == p
  {
    hide ToNumber, FirstArcs;
    NumberAtLeast(p);
    if p >= GAP { MiddleGroups(p, p / 4); }
    ArcsDetermine(p, q);
    NumberAtLeast(q);
    if GAP <= q < 2 * GAP { MiddleGroups(q, p / 4); }
  }

  lemma SameNumber(p: nat, q: nat)
    requires ToNumber(q) == ToNumber(p)
    ensures FirstArcs(q) == FirstArcs(p)
  {
    hide ToNumber;
  }

  /** 2^128 is 2^53 units of 2^75. */
  lemma MaxArc()
    ensures Radix.Pow(2, 128) == MAX_ARC == GAP * Radix.Pow(2, 75) && Radix.Pow(2, 75) == 0x800_0000_0000_0000_0000
  {
    assert Radix.Pow(2, 8) == 0x100 && Radix.Pow(2, 3) == 8;
    hide Radix.Pow;
    PowSum(8, 8);
    PowSum(16, 16);
    PowSum(32, 32);
    PowSum(64, 64);
    PowSum(64, 8);
    PowSum(72, 3);
  }

  lemma {:induction false} ShiftAtMost(n: nat, k: nat)
    requires n < GAP * Radix.Pow(2, k)
    ensures Shift(n) <= k
    decreases k
  {
    if n >= GAP {
      assert k > 0;
      assert GAP * Radix.Pow(2, k) == 2 * (GAP * Radix.Pow(2, k - 1));
      ShiftAtMost(n / 2, k - 1);
    }
  }

  /** Rounding does not leave the limit. */
  lemma NumberAtMost(n: nat)
    requires n <= MAX_ARC
    ensures ToNumber(n) <= MAX_ARC
  {
    hide ToNumber, Radix.Pow;
    MaxArc();
    if n == MAX_ARC {
      Representable(1, 128);
    } else {
      ShiftAtMost(n, 75);
      Rounding(n);
      TopBounds(n);
      Radix.PowMonotone(2, Shift(n), 75);
      Radix.MulMonotone(Unit(n), Radix.Pow(2, 75), n / Unit(n) + 1);
      Radix.MulMonotone(n / Unit(n) + 1, GAP, Radix.Pow(2, 75));
    }
  }

  /** A double of 2^54 or more is also what its successor rounds to. */
  lemma SuccessorRounds(n: nat)
    requires n >= 2 * GAP && ToNumber(n) == n
    ensures ToNumber(n + 1) == n
  {
    TopBounds(n);
    var u, q := Unit(n), n / Unit(n);
    EvenDouble(n);
    assert (n + 1) / 2 == n / 2;
    assert Shift(n + 1) == Shift(n);
    Radix.DivUnique(u, q, 1);
  }

  lemma EvenDouble(n: nat)
    requires n >= 2 * GAP && ToNumber(n) == n
    ensures n == n / Unit(n) * Unit(n) && n % 2 == 0
  {
    var u, q := Unit(n), n / Unit(n);
    assert n == q * u + n % u && (q + 1) * u == q * u + u;
    TopBounds(n);
    assert u == 2 * Unit(n / 2);
    assert q * (2 * Unit(n / 2)) == 2 * (q * Unit(n / 2));
  }

  /** The largest number below 2^128 rounds up to it. */
  lemma LastRounds()
    ensures ToNumber(MAX_ARC - 1) == MAX_ARC
  {
    MaxArc();
    var n, u := MAX_ARC - 1, Radix.Pow(2, 75);
    ShiftAtMost(n, 75);
    TopBounds(n);
    Radix.PowMonotone(2, Shift(n), 75);
    assert n == n / Unit(n) * Unit(n) + n % Unit(n);
    Radix.MulMonotone(n / Unit(n), MAX_SAFE_INTEGER, Unit(n));
    assert n < GAP * Unit(n) && n == GAP * u - 1 && Unit(n) == u;
    assert n == MAX_SAFE_INTEGER * u + (u - 1);
    Radix.DivUnique(u, MAX_SAFE_INTEGER, u - 1);
  }

  lemma DoubleTwin(p: nat)
    requires GAP <= p < 2 * GAP && p % 4 != 2 && ToNumber(p) == p
    ensures ToNumber(p + 1) == p
  {
    hide ToNumber;
    Middle(p);
    assert p == 4 * (p / 4) + p % 4;
    MiddleGroups(p + 1, p / 4);
  }

  lemma WithTwin(p: nat) returns (q: nat)
    requires !NoTwin(p) && p <= MAX_ARC
    ensures q != p && q <= MAX_ARC && ToNumber(q) == ToNumber(p)
  {
    hide ToNumber;
    NumberAtMost(p);
    Idempotent(p);
    if ToNumber(p) != p {
      q := ToNumber(p);
    } else if p < 2 * GAP {
      q := p + 1;
      DoubleTwin(p);
    } else if p < MAX_ARC {
      q := p + 1;
      SuccessorRounds(p);
    } else {
      q := p - 1;
      LastRounds();
    }
  }

  /**
   * The exact set: a first subidentifier is told apart from every other within the limit if and only if it is below
   * 2^53, or below 2^54 and congruent to 2 modulo 4.
   */
  lemma TwinIff(p: nat)
    requires p <= MAX_ARC
    ensures HasTwin(p) <==> !NoTwin(p)
  {
    hide ToNumber, FirstArcs, NoTwin;
    if NoTwin(p) {
      forall q: nat | FirstArcs(q) == FirstArcs(p) ensures q == p { WithoutTwin(p, q); }
    } else {
      var q := WithTwin(p);
      SameNumber(p, q);
    }
  }

  /** No other accepted content has this one's dotted text. */
  ghost predicate Alone(show: Printer, x: seq<Byte>)
    requires DecodeOid(x).Ok? && |DecodeOid(x).value| >= 2
  {
    forall y | DecodeOid(y).Ok? && |DecodeOid(y).value| >= 2 ::
      TextOf(show, DecodeOid(y).value) == TextOf(show, DecodeOid(x).value) ==> y == x
  }

  /**
   * Uniqueness, exactly: among all accepted contents, one is alone with its dotted text if and only if its first
   * subidentifier is below 2^53, or below 2^54 and congruent to 2 modulo 4.
   */
  lemma DottedOidUniqueIff(show: Printer, x: seq<Byte>)
    requires PrintsNumbers(show) && DecodeOid(x).Ok?
    ensures |DecodeOid(x).value| >= 2 && (Alone(show, x) <==> NoTwin(FirstSubid(x)))
  {
    hide DecodeOid, FirstArcs, FirstSubid, OtherArcs, TextOf, PrintsNumbers, NoTwin, GroupsAll;
    DottedTextsAgreeIff(show, x, x);
    Accepted(x);
    TwinIff(FirstSubid(x));
    if NoTwin(FirstSubid(x)) {
      forall y | DecodeOid(y).Ok? && |DecodeOid(y).value| >= 2
                 && TextOf(show, DecodeOid(y).value) == TextOf(show, DecodeOid(x).value)
        ensures y == x
      {
        DottedTextsAgreeIff(show, x, y);
        WithoutTwin(FirstSubid(x), FirstSubid(y));
        Accepted(y);
      }
    } else {
      var q: nat :| q != FirstSubid(x) && q <= MAX_ARC && FirstArcs(q) == FirstArcs(FirstSubid(x));
      var y := TwinContent(q, OtherArcs(x));
      DottedTextsAgreeIff(show, x, y);
      assert y != x;
    }
  }

  lemma TwinContent(q: nat, others: seq<nat>) returns (y: seq<Byte>)
    requires q <= MAX_ARC && Bounded(others)
    ensures DecodeOid(y).Ok? && FirstSubid(y) == q && OtherArcs(y) == others
  {
    hide Arcs;
    var ss := [q] + others;
    y := GroupsAll(ss);
    OidAccepts(y);
    assert y[0..] == y;
    SubidsComplete(ss, y, 0);
  }

  /** Beyond that they can: 2^53 and 2^53 + 1 as first subidentifiers both read as 2.9007199254740912. */
  lemma LargeFirstSubidsCollide()
    ensures var n := MAX_SAFE_INTEGER + 1;
      && Groups(n) != Groups(n + 1)
      && DecodeOid(GroupsAll([n])) == DecodeOid(GroupsAll([n + 1])) == Ok([2, 9007199254740912])
  {
    hide Groups, DecodeOid;
    var n := MAX_SAFE_INTEGER + 1;
    assert Shift(n / 2) == 0 && Shift((n + 1) / 2) == 0 && Shift(n) == 1 && Shift(n + 1) == 1;
    assert Radix.Pow(2, 1) == 2;
    assert ToNumber(n) == n && ToNumber(n + 1) == n;
    SafeIsExact(n - 80);
    assert Arcs([n]) == [2, n - 80] && Arcs([n + 1]) == [2, n - 80];
    OidAccepts(GroupsAll([n]));
    OidAccepts(GroupsAll([n + 1]));
    if Groups(n) == Groups(n + 1) {
      var g := Groups(n);
      assert g[0..|g|] == g;
      GroupsPrefixFree(g, 0, n, n + 1);
    }
  }
}
