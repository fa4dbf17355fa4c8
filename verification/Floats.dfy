/**
 Binary floating-point rounding on the reals. A rounding gives, for a number of mantissa bits, a
 nearest number with that many bits; nothing is said about ties, and exponents are unbounded.
 */
module Floats {
  import opened PowersOfTwo

  type Rounding = (nat, real) -> real

  function Abs(x: real): real {
    if x < 0.0 then -x else x
  }

  /** `x` is the mantissa `m` shifted by `k` places, down or up. */
  predicate Shifted(x: real, m: int, k: nat) {
    x * Pow2(k) as real == m as real || x == (m * Pow2(k)) as real
  }

  predicate Mantissa(bits: nat, m: int) {
    -Pow2(bits) <= m <= Pow2(bits)
  }

  /** The numbers with at most this many mantissa bits. */
  ghost predicate Representable(bits: nat, x: real) {
    exists m: int, k: nat :: Mantissa(bits, m) && Shifted(x, m, k)
  }

  ghost predicate Nearest(bits: nat, x: real, r: real) {
    && Representable(bits, r)
    && (forall y :: Representable(bits, y) ==> Abs(r - x) <= Abs(y - x))
  }

  ghost predicate ToNearest(round: Rounding) {
    forall bits: nat, x: real :: bits >= 1 ==> Nearest(bits, x, round(bits, x))
  }

  lemma IntegerRepresentable(bits: nat, m: int)
    requires Mantissa(bits, m)
    ensures Representable(bits, m as real)
  {
    assert Shifted(m as real, m, 0);
  }

  lemma FractionRepresentable(bits: nat, m: int, k: nat, x: real)
    requires Mantissa(bits, m) && x * Pow2(k) as real == m as real
    ensures Representable(bits, x)
  {
    assert Shifted(x, m, k);
  }

  lemma DoubledRepresentable(bits: nat, m: int)
    requires Mantissa(bits, m)
    ensures Representable(bits, (2 * m) as real)
  {
    assert Shifted((2 * m) as real, m, 1);
  }

  lemma NearestMonotone(round: Rounding, bits: nat, x: real, y: real)
    requires ToNearest(round) && bits >= 1 && x <= y
    ensures round(bits, x) <= round(bits, y)
  {
    hide Representable;
    var r, s := round(bits, x), round(bits, y);
    assert Nearest(bits, x, r) && Nearest(bits, y, s);
  }

  lemma RoundsToItself(round: Rounding, bits: nat, x: real)
    requires ToNearest(round) && bits >= 1 && Representable(bits, x)
    ensures round(bits, x) == x
  {
    hide Representable;
    assert Nearest(bits, x, round(bits, x));
    assert Abs(x - x) == 0.0;
  }

  lemma AtMost(round: Rounding, bits: nat, x: real, y: real)
    requires ToNearest(round) && bits >= 1 && Representable(bits, y) && x <= y
    ensures round(bits, x) <= y
  {
    hide Representable, ToNearest;
    RoundsToItself(round, bits, y);
    NearestMonotone(round, bits, x, y);
  }

  lemma AtLeast(round: Rounding, bits: nat, x: real, y: real)
    requires ToNearest(round) && bits >= 1 && Representable(bits, y) && y <= x
    ensures y <= round(bits, x)
  {
    hide Representable, ToNearest;
    RoundsToItself(round, bits, y);
    NearestMonotone(round, bits, y, x);
  }

  lemma NoFarther(round: Rounding, bits: nat, x: real, y: real)
    requires ToNearest(round) && bits >= 1 && Representable(bits, y)
    ensures Abs(round(bits, x) - x) <= Abs(y - x)
  {
    hide Representable;
    assert Nearest(bits, x, round(bits, x));
  }

  lemma RoundedRepresentable(round: Rounding, bits: nat, x: real)
    requires ToNearest(round) && bits >= 1
    ensures Representable(bits, round(bits, x))
  {
    assert Nearest(bits, x, round(bits, x));
  }

  /** The number of binary digits. */
  function BitLength(n: nat): (len: nat)
    ensures n < Pow2(len)
    ensures n > 0 ==> len > 0 && Pow2(len - 1) <= n
  {
    if n == 0 then 0 else 1 + BitLength(n / 2)
  }

  lemma ScaleUp(a: real, b: real, c: real)
    requires a <= b && c >= 0.0
    ensures a * c <= b * c
  {
    assert (b - a) * c >= 0.0;
  }

  lemma Product(a: int, b: int)
    ensures (a * b) as real == a as real * b as real
  {
  }

  lemma TooLarge(x: real, p: real, step: real, scale: real)
    requires x > p >= 1.0 && scale >= step >= 1.0
    ensures x * scale > step * p
  {
    ScaleUp(step, scale, p);
    assert (x - p) * scale > 0.0;
  }

  lemma Rescale(x: real, a: real, b: real, m: real)
    requires x * a == m
    ensures x * (a * b) == m * b
  {
  }

  lemma GridFromInteger(x: real, m: int, scale: int, step: int) returns (n: int)
    requires x == (m * scale) as real
    ensures x * step as real == n as real
  {
    n := m * scale * step;
    Product(m * scale, step);
  }

  lemma GridFromFraction(x: real, m: int, k: nat, places: nat) returns (n: int)
    requires x * Pow2(k) as real == m as real && k <= places
    ensures x * Pow2(places) as real == n as real
  {
    hide Pow2;
    var rest := Pow2(places - k);
    n := m * rest;
    Pow2Sum(k, places - k);
    Product(Pow2(k), rest);
    Product(m, rest);
    Rescale(x, Pow2(k) as real, rest as real, m as real);
  }

  lemma FewPlaces(bits: nat, t: nat, x: real, m: int, k: nat)
    requires t < bits && x > Pow2(t) as real && x * Pow2(k) as real == m as real && Mantissa(bits, m)
    ensures k < bits - t
  {
    hide Pow2;
    if k >= bits - t {
      var step := Pow2(bits - t);
      Pow2Sum(bits - t, t);
      Product(step, Pow2(t));
      Pow2Grows(bits - t, k);
      TooLarge(x, Pow2(t) as real, step as real, Pow2(k) as real);
    }
  }

  /** Above a power of two, the representable numbers are multiples of one step. */
  lemma OnGrid(bits: nat, t: nat, x: real) returns (n: int)
    requires t < bits && Representable(bits, x) && x > Pow2(t) as real
    ensures x * Pow2(bits - t - 1) as real == n as real
  {
    hide Pow2, Mantissa;
    var m: int, k: nat :| Mantissa(bits, m) && Shifted(x, m, k);
    if x == (m * Pow2(k)) as real {
      n := GridFromInteger(x, m, Pow2(k), Pow2(bits - t - 1));
    } else {
      FewPlaces(bits, t, x, m, k);
      n := GridFromFraction(x, m, k, bits - t - 1);
    }
  }

  lemma GrowsBy(x: real, scale: real)
    requires x >= 0.0 && scale >= 1.0
    ensures x * scale >= x
  {
    assert x * (scale - 1.0) >= 0.0;
  }

  lemma NotScaledDown(x: real, m: real, scale: real)
    requires x > m && x > 0.0 && scale >= 1.0
    ensures x * scale != m
  {
    GrowsBy(x, scale);
  }

  lemma ScaledUpOnly(bits: nat, x: real, m: int, k: nat)
    requires Mantissa(bits, m) && Shifted(x, m, k) && x > Pow2(bits) as real
    ensures x == (m * Pow2(k)) as real && k > 0
  {
    hide Pow2;
    NotScaledDown(x, m as real, Pow2(k) as real);
    Pow2Zero();
    assert k == 0 ==> m * Pow2(k) == m;
  }

  /** Beyond what the mantissa holds, only even integers are representable. */
  lemma EvenAbove(bits: nat, x: real) returns (n: int)
    requires Representable(bits, x) && x > Pow2(bits) as real
    ensures x == (2 * n) as real
  {
    hide Shifted, Mantissa;
    var m: int, k: nat :| Mantissa(bits, m) && Shifted(x, m, k);
    ScaledUpOnly(bits, x, m, k);
    n := m * Pow2(k - 1);
  }

  // ----- Roundings exist -----

  lemma ShiftedHalf(x: real, m: int, k: nat)
    requires Shifted(x, m, k)
    ensures Shifted(x / 2.0, m, k + 1) || (k > 0 && Shifted(x / 2.0, m, k - 1)) || (k == 0 && Shifted(x / 2.0, m, 1))
  {
    var scale := Pow2(k) as real;
    assert Pow2(k + 1) as real == 2.0 * scale;
    assert x / 2.0 * (2.0 * scale) == x * scale;
    if k > 0 {
      TwiceProduct(m, Pow2(k - 1));
    }
  }

  lemma ShiftedTwice(x: real, m: int, k: nat)
    requires Shifted(x, m, k)
    ensures Shifted(2.0 * x, m, k + 1) || (k > 0 && Shifted(2.0 * x, m, k - 1)) || (k == 0 && Shifted(2.0 * x, m, 1))
  {
    TwiceProduct(m, Pow2(k));
    if k > 0 {
      var scale := Pow2(k - 1) as real;
      assert Pow2(k) as real == 2.0 * scale;
      assert 2.0 * x * scale == x * (2.0 * scale);
    }
  }

  lemma TwiceProduct(m: int, p: int)
    ensures m * (2 * p) == 2 * (m * p)
  {
  }

  lemma HalfRepresentable(bits: nat, x: real)
    requires Representable(bits, x)
    ensures Representable(bits, x / 2.0)
  {
    hide Shifted, Mantissa;
    var m: int, k: nat :| Mantissa(bits, m) && Shifted(x, m, k);
    ShiftedHalf(x, m, k);
  }

  lemma TwiceRepresentable(bits: nat, x: real)
    requires Representable(bits, x)
    ensures Representable(bits, 2.0 * x)
  {
    hide Shifted, Mantissa;
    var m: int, k: nat :| Mantissa(bits, m) && Shifted(x, m, k);
    ShiftedTwice(x, m, k);
  }

  lemma OppositeRepresentable(bits: nat, x: real)
    requires Representable(bits, x)
    ensures Representable(bits, -x)
  {
    var m: int, k: nat :| Mantissa(bits, m) && Shifted(x, m, k);
    assert (-m) * Pow2(k) == -(m * Pow2(k));
    assert Shifted(-x, -m, k);
  }

  lemma NearestOfHalf(bits: nat, x: real, r: real)
    requires Nearest(bits, 2.0 * x, r)
    ensures Nearest(bits, x, r / 2.0)
  {
    hide Representable;
    HalfRepresentable(bits, r);
    forall y | Representable(bits, y)
      ensures Abs(r / 2.0 - x) <= Abs(y - x)
    {
      TwiceRepresentable(bits, y);
    }
  }

  lemma NearestOfTwice(bits: nat, x: real, r: real)
    requires Nearest(bits, x / 2.0, r)
    ensures Nearest(bits, x, 2.0 * r)
  {
    hide Representable;
    TwiceRepresentable(bits, r);
    forall y | Representable(bits, y)
      ensures Abs(2.0 * r - x) <= Abs(y - x)
    {
      HalfRepresentable(bits, y);
    }
  }

  lemma NearestOfOpposite(bits: nat, x: real, r: real)
    requires Nearest(bits, -x, r)
    ensures Nearest(bits, x, -r)
  {
    hide Representable;
    OppositeRepresentable(bits, r);
    forall y | Representable(bits, y)
      ensures Abs(-r - x) <= Abs(y - x)
    {
      OppositeRepresentable(bits, y);
    }
  }

  lemma IntegerWhenFull(bits: nat, y: real) returns (n: int)
    requires bits >= 1 && y > Pow2(bits - 1) as real && Representable(bits, y)
    ensures y == n as real
  {
    hide Representable, Pow2;
    Pow2Zero();
    var t := bits - 1;
    n := OnGrid(bits, t, y);
    assert bits - t - 1 == 0;
    assert y * 1.0 == y;
  }

  /** Where the mantissa is full, nothing representable lies between two integers. */
  lemma NothingBetween(bits: nat, q: int, y: real)
    requires bits >= 1 && Pow2(bits - 1) <= q && Representable(bits, y)
    ensures y <= q as real || y >= (q + 1) as real
  {
    hide Representable, Pow2;
    if y > Pow2(bits - 1) as real {
      var n := IntegerWhenFull(bits, y);
      IntegersApart(n, q);
    }
  }

  lemma IntegersApart(n: int, q: int)
    ensures n as real <= q as real || n as real >= (q + 1) as real
  {
    if n > q {
      assert n >= q + 1;
    }
  }

  function Rounded(x: real): real {
    if x - x.Floor as real <= 0.5 then x.Floor as real else (x.Floor + 1) as real
  }

  /** The error is at most half a unit in the last place: `x` divided by two to the number of bits. */
  predicate Close(bits: nat, x: real, r: real) {
    Abs(r - x) * Pow2(bits) as real <= Abs(x)
  }

  lemma CloseScaled(bits: nat, x: real, r: real)
    requires Close(bits, x, r)
    ensures Close(bits, x / 2.0, r / 2.0) && Close(bits, 2.0 * x, 2.0 * r) && Close(bits, -x, -r)
  {
    hide Pow2;
    var e, scale := Abs(r - x), Pow2(bits) as real;
    assert Abs(r / 2.0 - x / 2.0) == e / 2.0 && Abs(2.0 * r - 2.0 * x) == 2.0 * e && Abs(-r - (-x)) == e;
    assert e / 2.0 * scale == e * scale / 2.0;
    assert 2.0 * e * scale == 2.0 * (e * scale);
  }

  lemma HalfUnit(e: real, half: real, x: real)
    requires 0.0 <= e <= 0.5 && 0.0 <= half <= x
    ensures e * (2.0 * half) <= x
  {
    ScaleUp(e, 0.5, 2.0 * half);
  }

  lemma CloseFull(bits: nat, x: real)
    requires bits >= 1 && Pow2(bits - 1) as real <= x
    ensures Close(bits, x, Rounded(x))
  {
    hide Rounded;
    RoundedNear(x);
    HalfUnit(Abs(Rounded(x) - x), Pow2(bits - 1) as real, x);
    assert Pow2(bits) as real == 2.0 * Pow2(bits - 1) as real;
  }

  lemma RoundedNear(x: real)
    ensures Abs(Rounded(x) - x) <= 0.5
  {
  }

  /** There the nearest representable number is the nearest integer. */
  lemma NearestFull(bits: nat, x: real)
    requires bits >= 1 && Pow2(bits - 1) as real <= x < Pow2(bits) as real
    ensures Nearest(bits, x, Rounded(x)) && Close(bits, x, Rounded(x))
  {
    hide Representable, Pow2, Close;
    CloseFull(bits, x);
    IntegerRepresentable(bits, x.Floor);
    IntegerRepresentable(bits, x.Floor + 1);
    forall y | Representable(bits, y)
      ensures Abs(Rounded(x) - x) <= Abs(y - x)
    {
      NothingBetween(bits, x.Floor, y);
    }
  }

  lemma {:induction false} NearestFromAbove(bits: nat, x: real) returns (r: real)
    requires bits >= 1 && Pow2(bits - 1) as real <= x
    ensures Nearest(bits, x, r) && Close(bits, x, r)
    decreases x.Floor
  {
    hide Close, Nearest;
    if x < Pow2(bits) as real {
      NearestFull(bits, x);
      r := Rounded(x);
    } else {
      r := NearestFromAbove(bits, x / 2.0);
      NearestOfTwice(bits, x, r);
      CloseScaled(bits, x / 2.0, r);
      r := 2.0 * r;
    }
  }

  lemma {:induction false} NearestFromBelow(bits: nat, x: real, k: nat) returns (r: real)
    requires bits >= 1 && 0.0 < x && x * Pow2(k) as real >= Pow2(bits - 1) as real
    ensures Nearest(bits, x, r) && Close(bits, x, r)
    decreases k
  {
    hide Close, Nearest;
    if x >= Pow2(bits - 1) as real {
      r := NearestFromAbove(bits, x);
    } else {
      r := NearestFromBelow(bits, 2.0 * x, k - 1);
      NearestOfHalf(bits, x, r);
      CloseScaled(bits, 2.0 * x, r);
      r := r / 2.0;
    }
  }

  lemma NearestExists(bits: nat, x: real)
    requires bits >= 1
    ensures exists r :: Nearest(bits, x, r) && Close(bits, x, r)
  {
    hide Close, Nearest;
    if x > 0.0 {
      var r := NearestPositive(bits, x);
    } else if x < 0.0 {
      var r := NearestPositive(bits, -x);
      NearestOfOpposite(bits, x, r);
      CloseScaled(bits, -x, r);
    } else {
      NearestZero(bits);
    }
  }

  lemma NearestZero(bits: nat)
    ensures Nearest(bits, 0.0, 0.0) && Close(bits, 0.0, 0.0)
  {
    IntegerRepresentable(bits, 0);
  }

  lemma NearestPositive(bits: nat, x: real) returns (r: real)
    requires bits >= 1 && x > 0.0
    ensures Nearest(bits, x, r) && Close(bits, x, r)
  {
    hide Close, Nearest, Pow2;
    var bound := Pow2(bits - 1) as real / x;
    var k := bound.Floor + 1;
    Pow2Beyond(k);
    ScaleUp(bound, Pow2(k) as real, x);
    assert bound * x == Pow2(bits - 1) as real;
    r := NearestFromBelow(bits, x, k);
  }

  lemma {:induction false} Pow2Beyond(k: nat)
    ensures Pow2(k) >= k
  {
    if k > 0 {
      Pow2Beyond(k - 1);
    }
  }

  ghost function SomeNearest(bits: nat, x: real): (r: real)
    ensures bits >= 1 ==> Nearest(bits, x, r)
  {
    if bits == 0 then 0.0
    else
      NearestExists(bits, x);
      var r :| Nearest(bits, x, r);
      r
  }

  /** Every rounding to nearest is within half a unit in the last place. */
  lemma RelativeError(round: Rounding, bits: nat, x: real)
    requires ToNearest(round) && bits >= 1
    ensures Abs(round(bits, x) - x) * Pow2(bits) as real <= Abs(x)
  {
    hide Representable, Pow2;
    NearestExists(bits, x);
    var r :| Nearest(bits, x, r) && Close(bits, x, r);
    NoFarther(round, bits, x, r);
    ScaleUp(Abs(round(bits, x) - x), Abs(r - x), Pow2(bits) as real);
  }

  /** There is a rounding to nearest. */
  lemma RoundingExists()
    ensures exists round :: ToNearest(round)
  {
    var round: Rounding := (bits: nat, x: real) => SomeNearest(bits, x);
    assert ToNearest(round);
  }
}
