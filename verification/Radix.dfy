/** Positional notation: digit sequences, most significant first, in any base. */
module Radix {
  import opened Bytes

  type Digits = seq<nat>

  predicate InBase(ds: Digits, base: nat) {
    forall i :: 0 <= i < |ds| ==> ds[i] < base
  }

  function Value(ds: Digits, base: nat): nat
    decreases |ds|
  {
    if ds == [] then 0 else Value(ds[..|ds| - 1], base) * base + ds[|ds| - 1]
  }

  /** The digits of a number without leading zeros. */
  function Minimal(x: nat, base: nat): (ds: Digits)
    requires base >= 2
    decreases x
  {
    if x == 0 then []
    else
      Smaller(x, base);
      Minimal(x / base, base) + [x % base]
  }

  lemma Smaller(x: nat, base: nat)
    requires base >= 2 && x > 0
    ensures x / base < x
  {
    assert x / base * base <= x;
    assert x / base * 2 <= x / base * base;
  }

  lemma Monotone(p: nat, q: nat, r: nat)
    requires p <= q
    ensures p * r <= q * r
  {
    assert (q - p) * r >= 0;
  }

  lemma Decompose(x: nat, base: nat)
    requires base >= 2
    ensures x / base * base + x % base == x && x % base < base
  {
  }

  lemma Recompose(q: nat, r: nat, base: nat)
    requires base >= 2 && r < base
    ensures (q * base + r) / base == q && (q * base + r) % base == r
  {
    var x := q * base + r;
    var v := x / base;
    assert v * base <= x < v * base + base;
    if v < q {
      Monotone(v + 1, q, base);
    } else if q < v {
      Monotone(q + 1, v, base);
    }
  }

  lemma ValueSnoc(ds: Digits, d: nat, base: nat)
    ensures Value(ds + [d], base) == Value(ds, base) * base + d
  {
    assert (ds + [d])[..|ds|] == ds;
  }

  lemma {:induction false} ValueOfMinimal(x: nat, base: nat)
    requires base >= 2
    ensures Value(Minimal(x, base), base) == x && InBase(Minimal(x, base), base)
    ensures Minimal(x, base) != [] ==> Minimal(x, base)[0] > 0
    decreases x
  {
    hide Value;
    if x == 0 {
      ValueNone(base);
    } else {
      Smaller(x, base);
      Decompose(x, base);
      ValueOfMinimal(x / base, base);
      ValueSnoc(Minimal(x / base, base), x % base, base);
    }
  }

  lemma ValueNone(base: nat)
    ensures Value([], base) == 0
  {
  }

  lemma {:induction false} MinimalOfValue(ds: Digits, base: nat)
    requires base >= 2 && InBase(ds, base) && (ds != [] ==> ds[0] > 0)
    ensures Minimal(Value(ds, base), base) == ds
    ensures ds != [] ==> Value(ds, base) > 0
    decreases |ds|
  {
    if ds != [] {
      var init, last := ds[..|ds| - 1], ds[|ds| - 1];
      MinimalOfValue(init, base);
      Recompose(Value(init, base), last, base);
      assert Value(init, base) > 0 ==> Value(init, base) * base > 0;
      assert init + [last] == ds;
    }
  }

  // ----- Leading zeros -----

  function LeadingZeros(ds: Digits): (n: nat)
    ensures n <= |ds|
    decreases |ds|
  {
    if ds == [] || ds[0] != 0 then 0 else 1 + LeadingZeros(ds[1..])
  }

  lemma {:induction false} SplitZeros(ds: Digits)
    ensures var n := LeadingZeros(ds); ds == ZeroBytes(n) + ds[n..] && (ds[n..] != [] ==> ds[n..][0] > 0)
    decreases |ds|
  {
    if ds != [] && ds[0] == 0 {
      SplitZeros(ds[1..]);
      var n := LeadingZeros(ds);
      assert ds[1..][n - 1..] == ds[n..];
      assert ds == [0] + ds[1..];
      assert ZeroBytes(n) == [0] + ZeroBytes(n - 1);
    }
  }

  lemma {:induction false} LeadingZerosOf(n: nat, ds: Digits)
    requires ds != [] ==> ds[0] > 0
    ensures LeadingZeros(ZeroBytes(n) + ds) == n
    decreases n
  {
    if n > 0 {
      assert (ZeroBytes(n) + ds)[1..] == ZeroBytes(n - 1) + ds;
      LeadingZerosOf(n - 1, ds);
    } else {
      assert ZeroBytes(0) + ds == ds;
    }
  }

  lemma {:induction false} ValueOfZeros(n: nat, ds: Digits, base: nat)
    ensures Value(ZeroBytes(n) + ds, base) == Value(ds, base)
    decreases |ds|, n
  {
    var all := ZeroBytes(n) + ds;
    if ds == [] {
      if n > 0 {
        assert all[..|all| - 1] == ZeroBytes(n - 1) + [];
        ValueOfZeros(n - 1, [], base);
      } else {
        assert all == [];
      }
    } else {
      assert all[..|all| - 1] == ZeroBytes(n) + ds[..|ds| - 1];
      ValueOfZeros(n, ds[..|ds| - 1], base);
    }
  }

  // ----- Changing the base -----

  /** The same number in another base, with as many leading zeros. */
  function Rebase(ds: Digits, from: nat, to: nat): Digits
    requires to >= 2
  {
    ZeroBytes(LeadingZeros(ds)) + Minimal(Value(ds, from), to)
  }

  /** Changing the base and back gives the same digits, leading zeros included. */
  lemma RebaseTwice(ds: Digits, from: nat, to: nat)
    requires from >= 2 && to >= 2 && InBase(ds, from)
    ensures InBase(Rebase(ds, from, to), to)
    ensures Rebase(Rebase(ds, from, to), to, from) == ds
  {
    var n := LeadingZeros(ds);
    var x := Value(ds, from);
    SplitZeros(ds);
    ValueOfMinimal(x, to);
    LeadingZerosOf(n, Minimal(x, to));
    ValueOfZeros(n, Minimal(x, to), to);
    ValueOfZeros(n, ds[n..], from);
    MinimalOfValue(ds[n..], from);
  }

  lemma RebaseEmpty(ds: Digits, from: nat, to: nat)
    requires from >= 2 && to >= 2 && InBase(ds, from)
    ensures Rebase(ds, from, to) == [] <==> ds == []
  {
    RebaseTwice(ds, from, to);
    if Rebase(ds, from, to) == [] {
      assert Rebase([], to, from) == ZeroBytes(0) + Minimal(0, from);
    }
  }
}
