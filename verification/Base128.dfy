/**
 * Base-128 numbers with a continuation bit, as X.690 uses them for high tag numbers (section 8.1.2.4) and for the arcs
 * of an object identifier (section 8.19.2).
 */
module Base128 {
  import opened Common
  import Radix

  /** The encoding of `n`: as few septets as possible, all but the last flagged. */
  function Groups(n: nat): (r: seq<Byte>)
    ensures |r| == |Radix.Minimal(128, n)| >= 1
  {
    var ds := Radix.Minimal(128, n);
    seq(|ds|, i requires 0 <= i < |ds| => if i + 1 < |ds| then ds[i] + 128 else ds[i])
  }

  datatype ScanError = Truncated | NonMinimal | TooLarge

  /** The accumulation loop: stop at the first unflagged octet, give up once the value passes `max`. */
  function Scan(bs: seq<Byte>, pos: nat, value: nat, max: nat): (r: Result<(nat, nat), ScanError>)
    requires pos <= |bs|
    ensures r.Ok? ==> pos < r.value.1 <= |bs|
    decreases |bs| - pos
  {
    if pos == |bs| then Err(Truncated)
    else
      var v := value * 128 + bs[pos] % 128;
      if v > max then Err(TooLarge)
      else if bs[pos] < 128 then Ok((v, pos + 1))
      else Scan(bs, pos + 1, v, max)
  }

  function ScanNumber(bs: seq<Byte>, pos: nat, max: nat): (r: Result<(nat, nat), ScanError>)
    requires pos <= |bs|
    ensures r.Ok? ==> pos < r.value.1 <= |bs|
  {
    if pos < |bs| && bs[pos] == 0x80 then Err(NonMinimal) else Scan(bs, pos, 0, max)
  }

  function Septets(bs: seq<Byte>): (ds: seq<nat>)
    ensures |ds| == |bs| && Radix.Digits(128, ds)
  {
    seq(|bs|, i requires 0 <= i < |bs| => bs[i] % 128)
  }

  /** One more octet extends the value by its septet. */
  lemma SeptetsExtend(bs: seq<Byte>, start: nat, pos: nat)
    requires start <= pos < |bs|
    ensures Radix.Value(128, Septets(bs[start..pos + 1]))
         == Radix.Value(128, Septets(bs[start..pos])) * 128 + bs[pos] % 128
  {
    var ds := Septets(bs[start..pos + 1]);
    assert ds[..|ds| - 1] == Septets(bs[start..pos]) && ds[|ds| - 1] == bs[pos] % 128;
    hide Septets;
    Radix.ValueSplit(128, ds);
  }

  lemma {:induction false} ScanSound(bs: seq<Byte>, start: nat, pos: nat, max: nat)
    requires start <= pos <= |bs| && forall i :: start <= i < pos ==> bs[i] >= 128
    ensures var r := Scan(bs, pos, Radix.Value(128, Septets(bs[start..pos])), max);
      r.Ok? ==>
        && r.value.0 <= max && r.value.0 == Radix.Value(128, Septets(bs[start..r.value.1]))
        && (forall i :: start <= i < r.value.1 - 1 ==> bs[i] >= 128) && bs[r.value.1 - 1] < 128
    decreases |bs| - pos
  {
    hide Radix.Value, Septets;
    if pos < |bs| {
      SeptetsExtend(bs, start, pos);
      if bs[pos] >= 128 { ScanSound(bs, start, pos + 1, max); }
    }
  }

  lemma {:induction false} PrefixBelow(ds: seq<nat>, k: nat)
    requires k <= |ds|
    ensures Radix.Value(128, ds[..k]) <= Radix.Value(128, ds)
    decreases |ds| - k
  {
    if k == |ds| {
      assert ds[..k] == ds;
    } else {
      assert ds[..k + 1][..k] == ds[..k];
      PrefixBelow(ds, k + 1);
    }
  }

  lemma GroupAt(bs: seq<Byte>, start: nat, n: nat, k: nat)
    requires At(bs, start, Groups(n)) && k < |Groups(n)|
    ensures var ds := Radix.Minimal(128, n);
      && start + k < |bs| && bs[start + k] % 128 == ds[k] && (bs[start + k] < 128 <==> k + 1 == |ds|)
  {
    var ds, g := Radix.Minimal(128, n), Groups(n);
    assert bs[start + k] == bs[start..start + |g|][k] == g[k];
    assert ds[k] < 128;
  }

  lemma {:induction false} ScanComplete(bs: seq<Byte>, start: nat, n: nat, max: nat, k: nat)
    requires At(bs, start, Groups(n)) && n <= max && k < |Groups(n)|
    ensures Scan(bs, start + k, Radix.Value(128, Radix.Minimal(128, n)[..k]), max) == Ok((n, start + |Groups(n)|))
    decreases |Groups(n)| - k
  {
    hide Radix.Value, Radix.Minimal, Groups;
    var ds := Radix.Minimal(128, n);
    GroupAt(bs, start, n, k);
    assert ds[..k + 1][..k] == ds[..k];
    Radix.ValueSplit(128, ds[..k + 1]);
    Radix.ValueOfMinimal(128, n);
    PrefixBelow(ds, k + 1);
    if k + 1 == |ds| { assert ds[..k + 1] == ds; } else { ScanComplete(bs, start, n, max, k + 1); }
  }

  /** The loop accepts exactly the numbers up to `max`, each in its one encoding. */
  lemma ScanNumberExact(bs: seq<Byte>, pos: nat, max: nat, n: nat, next: nat)
    requires pos <= |bs|
    ensures ScanNumber(bs, pos, max) == Ok((n, next)) <==>
        n <= max && At(bs, pos, Groups(n)) && next == pos + |Groups(n)|
  {
    assert bs[pos..pos] == [] && Radix.Value(128, []) == 0;
    hide Radix.Value;
    if ScanNumber(bs, pos, max) == Ok((n, next)) {
      ScanSound(bs, pos, pos, max);
      GroupsOfSeptets(bs[pos..next]);
    }
    if n <= max && At(bs, pos, Groups(n)) && next == pos + |Groups(n)| {
      assert Radix.Minimal(128, n)[..0] == [];
      ScanComplete(bs, pos, n, max, 0);
      GroupsLead(n);
      assert bs[pos] == bs[pos..next][0];
    }
  }

  lemma GroupsOfSeptets(g: seq<Byte>)
    requires |g| >= 1 && g[0] != 0x80 && g[|g| - 1] < 128 && forall i :: 0 <= i < |g| - 1 ==> g[i] >= 128
    ensures Groups(Radix.Value(128, Septets(g))) == g
  {
    var ds := Septets(g);
    assert Radix.NoLeadingZero(ds);
    Radix.MinimalOfValue(128, ds);
    hide Radix.Minimal, Radix.Value;
    forall i | 0 <= i < |g| ensures Groups(Radix.Value(128, ds))[i] == g[i] {}
  }

  lemma GroupsLead(n: nat)
    ensures Groups(n)[0] != 0x80
  {
    Radix.ValueOfMinimal(128, n);
  }

  /** No encoding is a proper prefix of another. */
  lemma GroupsPrefixFree(bs: seq<Byte>, pos: nat, n: nat, m: nat)
    requires At(bs, pos, Groups(n)) && At(bs, pos, Groups(m))
    ensures n == m
  {
    ScanNumberExact(bs, pos, n + m, n, pos + |Groups(n)|);
    ScanNumberExact(bs, pos, n + m, m, pos + |Groups(m)|);
  }
}
