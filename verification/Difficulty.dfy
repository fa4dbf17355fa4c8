/**
 The proportional difficulty controller: the new difficulty as a function of the parent's
 difficulty and the time between the two blocks, computed in floating point. Every result holds
 for any rounding to nearest; only the sizes of the mantissas matter.
 */
module Difficulty {
  import opened Bytes
  import opened Floats
  import opened PowersOfTwo
  import opened Wrappers

  const GAIN: real := 0.5
  const DEADBAND: real := 0.05
  const CLAMP_MAX: real := 2.0
  const CLAMP_MIN: real := 0.5
  const CEILING: real := 0.999999
  const FALLBACK_TARGET: int := 60

  /** Mantissa bits of a double, and the least a multi-precision number made from an integer has. */
  const DOUBLE: nat := 53
  const WIDE: nat := 64

  datatype Params = Params(targetSeconds: int, minDifficulty: int)

  datatype Header = Header(difficulty: Option<int>, time: U64)

  function Target(p: Params): (t: int)
    ensures t >= 1
  {
    if p.targetSeconds <= 0 then FALLBACK_TARGET else p.targetSeconds
  }

  /** Seconds since the parent, in 64-bit arithmetic, at least one. */
  function Interval(now: U64, parent: Header): (i: int)
    ensures i >= 1
  {
    var i := W64(ToInt64(now) - ToInt64(parent.time));
    if i < 1 then 1 else i
  }

  lemma OneOrMore(round: Rounding, n: int)
    requires ToNearest(round) && n >= 1
    ensures round(DOUBLE, n as real) >= 1.0
  {
    hide ToNearest, Representable;
    IntegerRepresentable(DOUBLE, 1);
    AtLeast(round, DOUBLE, n as real, 1.0);
  }

  function Ratio(round: Rounding, target: int, interval: int): real
    requires ToNearest(round) && interval >= 1
  {
    OneOrMore(round, interval);
    round(DOUBLE, round(DOUBLE, target as real) / round(DOUBLE, interval as real))
  }

  predicate InDeadband(round: Rounding, ratio: real) {
    Abs(round(DOUBLE, ratio - 1.0)) < round(DOUBLE, DEADBAND)
  }

  function Adjustment(round: Rounding, ratio: real): (adj: real)
    ensures CLAMP_MIN <= adj <= CLAMP_MAX
  {
    var adj := round(DOUBLE, 1.0 + round(DOUBLE, GAIN * round(DOUBLE, ratio - 1.0)));
    if adj > CLAMP_MAX then CLAMP_MAX else if adj < CLAMP_MIN then CLAMP_MIN else adj
  }

  /** Mantissa bits of the scaled difficulty: enough for the parent's, and at least 64. */
  function Precision(parent: nat): (bits: nat)
    ensures bits >= WIDE
  {
    if BitLength(parent) > WIDE then BitLength(parent) else WIDE
  }

  /** Scaled and rounded up, in the parent's precision. */
  function Ceiled(round: Rounding, parent: nat, adj: real): real {
    var bits := Precision(parent);
    round(bits, round(bits, parent as real * adj) + round(DOUBLE, CEILING))
  }

  /** The scaled difficulty as an integer, before the minimum is enforced. */
  function Scaled(round: Rounding, parent: nat, ratio: real): nat {
    var result := Ceiled(round, parent, Adjustment(round, ratio)).Floor;
    if result <= 0 then 1 else result
  }

  function Enforce(result: nat, minimum: int): nat {
    if minimum > 0 && result < minimum then minimum else result
  }

  /** The controller; the deadband returns the parent's difficulty without enforcing the minimum. */
  function Next(round: Rounding, parent: nat, ratio: real, minimum: int): nat {
    if InDeadband(round, ratio) then parent else Enforce(Scaled(round, parent, ratio), minimum)
  }

  function CalcDifficulty(round: Rounding, p: Params, now: U64, parent: Option<Header>): int
    requires ToNearest(round)
  {
    if parent.None? || parent.value.difficulty.None? then
      if p.minDifficulty > 0 then p.minDifficulty else 1
    else
      var d := parent.value.difficulty.value;
      Next(round, if d <= 0 then 1 else d, Ratio(round, Target(p), Interval(now, parent.value)), p.minDifficulty)
  }

  predicate ValidateDifficulty(p: Params, difficulty: Option<int>, parent: Option<Header>) {
    && difficulty.Some? && difficulty.value > 0
    && (p.minDifficulty > 0 ==> difficulty.value >= p.minDifficulty)
    && (parent.Some? && parent.value.difficulty.Some? && parent.value.difficulty.value > 0 ==>
          difficulty.value <= parent.value.difficulty.value * 2048 / 1000)
  }

  // ----- Powers of two -----

  const TWO44: int := 0x1000_0000_0000
  const TWO63: int := 0x8000_0000_0000_0000

  lemma Powers()
    ensures Pow2(1) == 2 && Pow2(6) == 64 && Pow2(7) == 128 && Pow2(8) == 256 && Pow2(19) == 0x8_0000
    ensures Pow2(20) == 0x10_0000 && Pow2(52) == 0x10_0000_0000_0000
    ensures Pow2(18) == 0x4_0000 && Pow2(30) == 0x4000_0000 && Pow2(45) == 2 * TWO44
    ensures Pow2(DOUBLE) == 0x20_0000_0000_0000 && Pow2(WIDE) == 2 * TWO63
  {
    assert Pow2(4) == 16 * Pow2(0);
    assert Pow2(8) == 16 * Pow2(4);
    assert Pow2(12) == 16 * Pow2(8);
    assert Pow2(16) == 16 * Pow2(12);
    assert Pow2(20) == 16 * Pow2(16);
    Pow2Sum(20, 10);
    assert Pow2(10) == 4 * Pow2(8);
    Pow2Sum(20, 20);
    Pow2Sum(40, 4);
    assert Pow2(45) == 2 * Pow2(44);
    Pow2Sum(45, 8);
    Pow2Sum(44, 20);
  }

  /** The constants as doubles. */
  lemma DoubleConstants(round: Rounding)
    requires ToNearest(round)
    ensures 1.0 - 1.0 / 524288.0 < round(DOUBLE, CEILING) < 1.0 - 1.0 / 1048576.0
    ensures 3.0 / 64.0 <= round(DOUBLE, DEADBAND) <= 1.0 / 16.0
  {
    hide ToNearest, Representable, Pow2;
    Powers();
    var low, high := 1073740750.0 / 1073741824.0, 1073740751.0 / 1073741824.0;
    FractionRepresentable(DOUBLE, 1073740750, 30, low);
    FractionRepresentable(DOUBLE, 1073740751, 30, high);
    AtLeast(round, DOUBLE, CEILING, low);
    AtMost(round, DOUBLE, CEILING, high);
    FractionRepresentable(DOUBLE, 3, 6, 3.0 / 64.0);
    AtLeast(round, DOUBLE, DEADBAND, 3.0 / 64.0);
    FractionRepresentable(DOUBLE, 4, 6, 1.0 / 16.0);
    AtMost(round, DOUBLE, DEADBAND, 1.0 / 16.0);
  }

  // ----- Which way the adjustment goes -----

  /** Faster or slower than the deadband allows. */
  predicate Fast(round: Rounding, ratio: real) {
    ratio >= 1.0 && !InDeadband(round, ratio)
  }

  predicate Slow(round: Rounding, ratio: real) {
    ratio <= 1.0 && !InDeadband(round, ratio)
  }

  lemma SameOrder(x: real, y: real, scale: real)
    requires scale > 0.0
    ensures x * scale >= y * scale <==> x >= y
    ensures x * scale <= y * scale <==> x <= y
  {
    var gap := x - y;
    assert gap * scale == x * scale - y * scale;
    assert gap > 0.0 ==> gap * scale > 0.0;
    assert gap < 0.0 ==> gap * scale < 0.0;
  }

  /** A double at a dyadic bound stays on its side of the bound. */
  lemma KeepsSide(round: Rounding, x: real, m: int, k: nat)
    requires ToNearest(round) && Mantissa(DOUBLE, m)
    ensures x * Pow2(k) as real >= m as real ==> round(DOUBLE, x) * Pow2(k) as real >= m as real
    ensures x * Pow2(k) as real <= m as real ==> round(DOUBLE, x) * Pow2(k) as real <= m as real
  {
    hide ToNearest, Representable, Pow2;
    var p := Pow2(k) as real;
    var bound := m as real / p;
    assert bound * p == m as real;
    FractionRepresentable(DOUBLE, m, k, bound);
    SameOrder(x, bound, p);
    SameOrder(round(DOUBLE, x), bound, p);
    if x >= bound {
      AtLeast(round, DOUBLE, x, bound);
    }
    if x <= bound {
      AtMost(round, DOUBLE, x, bound);
    }
  }

  lemma FastAdjustment(round: Rounding, ratio: real)
    requires ToNearest(round) && Fast(round, ratio)
    ensures Adjustment(round, ratio) >= 1.0 + 3.0 / 128.0
  {
    hide ToNearest, Pow2;
    Powers();
    DoubleConstants(round);
    var offset := round(DOUBLE, ratio - 1.0);
    KeepsSide(round, ratio - 1.0, 0, 6);
    assert offset >= 3.0 / 64.0;
    KeepsSide(round, GAIN * offset, 3, 7);
    KeepsSide(round, 1.0 + round(DOUBLE, GAIN * offset), 131, 7);
  }

  lemma SlowAdjustment(round: Rounding, ratio: real)
    requires ToNearest(round) && Slow(round, ratio)
    ensures Adjustment(round, ratio) <= 1.0 - 3.0 / 128.0
  {
    hide ToNearest, Pow2;
    Powers();
    DoubleConstants(round);
    var offset := round(DOUBLE, ratio - 1.0);
    KeepsSide(round, ratio - 1.0, 0, 6);
    assert offset <= -3.0 / 64.0;
    KeepsSide(round, GAIN * offset, -3, 7);
    KeepsSide(round, 1.0 + round(DOUBLE, GAIN * offset), 125, 7);
  }

  // ----- Bounds -----

  lemma PrecisionHolds(parent: nat)
    requires parent >= 1
    ensures parent + 1 <= Pow2(Precision(parent)) && Pow2(Precision(parent)) >= 2 * TWO63
    ensures parent < 2 * TWO63 ==> Precision(parent) == WIDE
    ensures parent >= TWO63 ==> Pow2(Precision(parent)) <= 2 * parent
  {
    Powers();
    var len := BitLength(parent);
    if len > WIDE {
      Pow2Grows(WIDE, len - 1);
    } else {
      Pow2Grows(len, WIDE);
    }
    if parent >= TWO63 && len < WIDE {
      Pow2Grows(len, WIDE - 1);
    }
  }

  /** Sixty-fourth parts near a small parent. */
  lemma NearParent(parent: nat, m: int, x: real)
    requires 1 <= parent < 43 && 0 <= m <= 64 * (parent + 1) && x * 64.0 == m as real
    ensures Representable(Precision(parent), x)
  {
    hide Pow2, Representable, Precision;
    Powers();
    PrecisionHolds(parent);
    FractionRepresentable(Precision(parent), m, 6, x);
  }

  lemma ScaleBound(parent: int, adj: real, low: real, high: real)
    requires parent >= 1 && low <= adj <= high
    ensures parent as real * low <= parent as real * adj <= parent as real * high
  {
    var p := parent as real;
    assert p * (adj - low) >= 0.0;
    assert p * (high - adj) >= 0.0;
  }

  lemma FastProduct(parent: int, adj: real)
    requires parent >= 1 && adj >= 1.0 + 3.0 / 128.0
    ensures parent as real * adj >= parent as real + 1.0 / 64.0
    ensures parent >= 43 ==> parent as real * adj >= (parent + 1) as real
  {
    var p := parent as real;
    assert p * (adj - 1.0 - 3.0 / 128.0) >= 0.0;
    assert p * adj >= p + p * (3.0 / 128.0);
  }

  lemma SlowProduct(parent: int, adj: real)
    requires parent >= 1 && adj <= 1.0 - 3.0 / 128.0
    ensures parent as real * adj <= parent as real - 1.0 / 64.0
    ensures parent >= 43 ==> parent as real * adj <= (parent - 1) as real
  {
    var p := parent as real;
    assert p * (1.0 - 3.0 / 128.0 - adj) >= 0.0;
    assert p * adj <= p - p * (3.0 / 128.0);
  }

  lemma FastCeiled(round: Rounding, parent: nat, adj: real)
    requires ToNearest(round) && parent >= 1 && adj >= 1.0 + 3.0 / 128.0
    ensures Ceiled(round, parent, adj) >= (parent + 1) as real
  {
    hide ToNearest, Representable, Pow2, Precision;
    var bits, p, raised := Precision(parent), parent as real, (parent + 1) as real;
    var product := parent as real * adj;
    PrecisionHolds(parent);
    DoubleConstants(round);
    FastProduct(parent, adj);
    IntegerRepresentable(bits, parent + 1);
    if parent < 43 {
      NearParent(parent, 64 * parent + 1, p + 1.0 / 64.0);
      AtLeast(round, bits, product, p + 1.0 / 64.0);
    } else {
      AtLeast(round, bits, product, raised);
    }
    AtLeast(round, bits, round(bits, product) + round(DOUBLE, CEILING), raised);
  }

  lemma SlowCeiled(round: Rounding, parent: nat, adj: real)
    requires ToNearest(round) && parent >= 1 && adj <= 1.0 - 3.0 / 128.0
    ensures Ceiled(round, parent, adj) < (parent + 1) as real
  {
    hide ToNearest, Representable, Pow2, Precision;
    var bits, p := Precision(parent), parent as real;
    var product := parent as real * adj;
    PrecisionHolds(parent);
    DoubleConstants(round);
    SlowProduct(parent, adj);
    if parent < 43 {
      NearParent(parent, 64 * parent - 1, p - 1.0 / 64.0);
      AtMost(round, bits, product, p - 1.0 / 64.0);
      NearParent(parent, 64 * parent + 63, p + 63.0 / 64.0);
      AtMost(round, bits, round(bits, product) + round(DOUBLE, CEILING), p + 63.0 / 64.0);
    } else {
      IntegerRepresentable(bits, parent - 1);
      AtMost(round, bits, product, (parent - 1) as real);
      IntegerRepresentable(bits, parent);
      AtMost(round, bits, round(bits, product) + round(DOUBLE, CEILING), p);
    }
  }

  /** Faster than the deadband raises by at least one; slower never raises. */
  lemma ScaledDirection(round: Rounding, parent: nat, ratio: real)
    requires ToNearest(round) && parent >= 1
    ensures Fast(round, ratio) ==> Scaled(round, parent, ratio) >= parent + 1
    ensures Slow(round, ratio) ==> Scaled(round, parent, ratio) <= parent
  {
    hide ToNearest, Adjustment, Ceiled, InDeadband;
    if Fast(round, ratio) {
      FastAdjustment(round, ratio);
      FastCeiled(round, parent, Adjustment(round, ratio));
    }
    if Slow(round, ratio) {
      SlowAdjustment(round, ratio);
      SlowCeiled(round, parent, Adjustment(round, ratio));
    }
  }

  // ----- At most twice -----

  /** The product never rounds above twice the parent's. */
  lemma ProductAtMostTwice(round: Rounding, parent: nat, adj: real)
    requires ToNearest(round) && parent >= 1 && adj <= CLAMP_MAX
    ensures round(Precision(parent), parent as real * adj) <= (2 * parent) as real
  {
    hide ToNearest, Representable, Pow2, Precision;
    PrecisionHolds(parent);
    DoubledRepresentable(Precision(parent), parent);
    ScaleBound(parent, adj, adj, CLAMP_MAX);
    assert parent as real * CLAMP_MAX == (2 * parent) as real;
    AtMost(round, Precision(parent), parent as real * adj, (2 * parent) as real);
  }

  /** The last sum is at most what it is when the product is exactly twice the parent's. */
  lemma CeiledAtMostTop(round: Rounding, parent: nat, adj: real)
    requires ToNearest(round) && parent >= 1 && adj <= CLAMP_MAX
    ensures Ceiled(round, parent, adj) <= Top(round, parent)
  {
    hide ToNearest, Precision;
    ProductAtMostTwice(round, parent, adj);
    NearestMonotone(round, Precision(parent),
                    round(Precision(parent), parent as real * adj) + round(DOUBLE, CEILING),
                    (2 * parent) as real + round(DOUBLE, CEILING));
  }

  function Top(round: Rounding, parent: nat): real {
    round(Precision(parent), (2 * parent) as real + round(DOUBLE, CEILING))
  }

  lemma ClampedIsTop(round: Rounding, parent: nat)
    requires ToNearest(round) && parent >= 1
    ensures Ceiled(round, parent, CLAMP_MAX) == Top(round, parent)
  {
    hide ToNearest, Representable, Pow2, Precision;
    PrecisionHolds(parent);
    DoubledRepresentable(Precision(parent), parent);
    assert parent as real * CLAMP_MAX == (2 * parent) as real;
    RoundsToItself(round, Precision(parent), (2 * parent) as real);
  }

  lemma TopOfSmall(round: Rounding, parent: nat)
    requires ToNearest(round) && 1 <= parent < TWO44
    ensures Top(round, parent) < (2 * parent + 1) as real
  {
    hide ToNearest, Representable, Pow2, Precision;
    Powers();
    PrecisionHolds(parent);
    DoubleConstants(round);
    var x := (2 * parent) as real + round(DOUBLE, CEILING);
    var below := (2 * parent + 1) as real - 1.0 / 524288.0;
    FractionRepresentable(WIDE, (2 * parent + 1) * 524288 - 1, 19, below);
    NoFarther(round, WIDE, x, below);
  }

  lemma TopOfLarge(round: Rounding, parent: nat)
    requires ToNearest(round) && TWO44 <= parent < TWO63
    ensures Top(round, parent) == (2 * parent + 1) as real
  {
    hide ToNearest, Representable, Pow2, Precision;
    Powers();
    PrecisionHolds(parent);
    DoubleConstants(round);
    var x := (2 * parent) as real + round(DOUBLE, CEILING);
    var above := (2 * parent + 1) as real;
    IntegerRepresentable(WIDE, 2 * parent + 1);
    AtMost(round, WIDE, x, above);
    NoFarther(round, WIDE, x, above);
    var top := round(WIDE, x);
    RoundedRepresentable(round, WIDE, x);
    var n := OnGrid(WIDE, 45, top);
    assert top * 262144.0 == n as real;
    assert n > (2 * parent + 1) * 262144 - 1;
  }

  lemma TopOfHuge(round: Rounding, parent: nat)
    requires ToNearest(round) && parent >= TWO63
    ensures Top(round, parent) <= (2 * parent) as real
  {
    hide ToNearest, Representable, Pow2, Precision;
    PrecisionHolds(parent);
    DoubleConstants(round);
    var bits := Precision(parent);
    var x := (2 * parent) as real + round(DOUBLE, CEILING);
    DoubledRepresentable(bits, parent);
    NoFarther(round, bits, x, (2 * parent) as real);
    RoundedRepresentable(round, bits, x);
    var top := round(bits, x);
    assert top < (2 * parent + 2) as real;
    if top > Pow2(bits) as real {
      var n := EvenAbove(bits, top);
      EvenBelow(n, parent, top);
    }
  }

  lemma EvenBelow(n: int, parent: int, top: real)
    requires top == (2 * n) as real && top < (2 * parent + 2) as real
    ensures top <= (2 * parent) as real
  {
    assert 2 * n < 2 * parent + 2;
    assert n <= parent;
  }

  /** A double below two is at least one step below it. */
  lemma BelowTwo(adj: real)
    requires Representable(DOUBLE, adj) && adj < CLAMP_MAX
    ensures adj <= 2.0 - 1.0 / 4503599627370496.0
  {
    hide Representable, Pow2;
    Powers();
    if adj > 1.0 {
      Pow2Zero();
      var n := OnGrid(DOUBLE, 0, adj);
      assert adj * 4503599627370496.0 == n as real;
      assert n < 2 * 4503599627370496;
    }
  }

  lemma ShortProduct(parent: int, adj: real)
    requires parent >= TWO44 && adj <= 2.0 - 1.0 / 4503599627370496.0
    ensures parent as real * adj <= (2 * parent) as real - 1.0 / 256.0
    ensures parent >= 256 * TWO44 ==> parent as real * adj <= (2 * parent - 1) as real
  {
    var p := parent as real;
    assert p * (2.0 - 1.0 / 4503599627370496.0 - adj) >= 0.0;
    assert p * adj <= 2.0 * p - p * (1.0 / 4503599627370496.0);
  }

  /** Short of the clamp, a large parent's result stays within twice. */
  lemma UnclampedLarge(round: Rounding, parent: nat, adj: real)
    requires ToNearest(round) && TWO44 <= parent < TWO63 && Representable(DOUBLE, adj) && adj < CLAMP_MAX
    ensures Ceiled(round, parent, adj) < (2 * parent + 1) as real
  {
    hide ToNearest, Representable, Pow2, Precision;
    Powers();
    PrecisionHolds(parent);
    DoubleConstants(round);
    BelowTwo(adj);
    ShortProduct(parent, adj);
    var product := parent as real * adj;
    var sum := round(WIDE, product) + round(DOUBLE, CEILING);
    if parent >= 256 * TWO44 {
      IntegerRepresentable(WIDE, 2 * parent - 1);
      AtMost(round, WIDE, product, (2 * parent - 1) as real);
      IntegerRepresentable(WIDE, 2 * parent);
      AtMost(round, WIDE, sum, (2 * parent) as real);
    } else {
      var short := (2 * parent) as real - 1.0 / 256.0;
      FractionRepresentable(WIDE, 512 * parent - 1, 8, short);
      AtMost(round, WIDE, product, short);
      var below := (2 * parent + 1) as real - 1.0 / 256.0;
      FractionRepresentable(WIDE, 512 * parent + 255, 8, below);
      AtMost(round, WIDE, sum, below);
    }
  }

  lemma AdjustmentIsDouble(round: Rounding, ratio: real)
    requires ToNearest(round)
    ensures Representable(DOUBLE, Adjustment(round, ratio))
  {
    hide ToNearest, Representable, Pow2;
    Powers();
    IntegerRepresentable(DOUBLE, 2);
    FractionRepresentable(DOUBLE, 1, 1, 0.5);
    RoundedRepresentable(round, DOUBLE, 1.0 + round(DOUBLE, GAIN * round(DOUBLE, ratio - 1.0)));
  }

  /** The clamped sum is rounded up to a whole one more than twice the parent's. */
  predicate RoundsOver(round: Rounding, parent: nat, ratio: real) {
    TWO44 <= parent < TWO63 && Adjustment(round, ratio) == CLAMP_MAX
  }

  /**
   At most twice the parent's, except that adding 0.999999 to twice the parent's is itself rounded
   up, by one, for clamped results of parents from 2^44 to below 2^63.
   */
  lemma ScaledBounds(round: Rounding, parent: nat, ratio: real)
    requires ToNearest(round) && parent >= 1
    ensures 1 <= Scaled(round, parent, ratio) <= 2 * parent + 1
    ensures Scaled(round, parent, ratio) <= 2 * parent <==> !RoundsOver(round, parent, ratio)
  {
    hide ToNearest, Representable, Adjustment, Ceiled, Top;
    var adj := Adjustment(round, ratio);
    CeiledAtMostTop(round, parent, adj);
    if parent < TWO44 {
      TopOfSmall(round, parent);
    } else if parent >= TWO63 {
      TopOfHuge(round, parent);
    } else {
      TopOfLarge(round, parent);
      ClampedIsTop(round, parent);
      if adj < CLAMP_MAX {
        AdjustmentIsDouble(round, ratio);
        UnclampedLarge(round, parent, adj);
      }
    }
  }

  // ----- The computed difficulty passes validation -----

  /** Even the result that is rounded over is within the 2.048-fold bound. */
  lemma ScaledAllowed(round: Rounding, parent: nat, ratio: real)
    requires ToNearest(round) && parent >= 1
    ensures 1 <= Scaled(round, parent, ratio) <= parent * 2048 / 1000
    ensures parent <= parent * 2048 / 1000
  {
    hide ToNearest, Scaled, Adjustment;
    ScaledBounds(round, parent, ratio);
  }

  /**
   Validation accepts exactly the difficulties from one and from the minimum up that are at most
   2.048 times a positive parent's.
   */
  lemma ValidatedExactly(p: Params, d: int, parent: Option<Header>)
    ensures ValidateDifficulty(p, Some(d), parent) <==>
      && 1 <= d && p.minDifficulty <= d
      && (parent.Some? && parent.value.difficulty.Some? && parent.value.difficulty.value >= 1 ==>
            1000 * d <= 2048 * parent.value.difficulty.value)
    ensures !ValidateDifficulty(p, None, parent)
  {
  }

  /** Without a parent difficulty the result is the minimum, or one when there is none. */
  lemma CalcWithoutParent(round: Rounding, p: Params, now: U64, parent: Option<Header>)
    requires ToNearest(round) && (parent.None? || parent.value.difficulty.None?)
    ensures var c := CalcDifficulty(round, p, now, parent); c >= 1 && c >= p.minDifficulty && (c == 1 || c == p.minDifficulty)
  {
    hide ToNearest;
  }

  /** The interval is in the deadband for this parent. */
  predicate Steady(round: Rounding, p: Params, now: U64, parent: Header)
    requires ToNearest(round)
  {
    InDeadband(round, Ratio(round, Target(p), Interval(now, parent)))
  }

  /**
   What the controller computes is accepted exactly when no minimum is set, or there is no parent
   difficulty, or in the deadband the parent is at the minimum already, or outside it the minimum
   is within the 2.048-fold bound. A parent of non-positive difficulty counts as one and sets no bound.
   */
  lemma AcceptedExactly(round: Rounding, p: Params, now: U64, parent: Option<Header>)
    requires ToNearest(round)
    ensures ValidateDifficulty(p, Some(CalcDifficulty(round, p, now, parent)), parent) <==>
      (p.minDifficulty <= 0 || parent.None? || parent.value.difficulty.None?
       || (var d := parent.value.difficulty.value;
           if Steady(round, p, now, parent.value) then (if d <= 0 then 1 else d) >= p.minDifficulty
           else d <= 0 || p.minDifficulty <= d * 2048 / 1000))
  {
    hide ToNearest, Ratio, Interval, InDeadband, Scaled;
    if parent.Some? && parent.value.difficulty.Some? {
      var d := parent.value.difficulty.value;
      ScaledAllowed(round, if d <= 0 then 1 else d, Ratio(round, Target(p), Interval(now, parent.value)));
    }
  }

  /** A parent that is itself at or above the minimum never leads to a rejected difficulty. */
  lemma AlwaysAccepted(round: Rounding, p: Params, now: U64, parent: Header)
    requires ToNearest(round) && parent.difficulty.Some? && parent.difficulty.value >= 1
    requires parent.difficulty.value >= p.minDifficulty
    ensures ValidateDifficulty(p, Some(CalcDifficulty(round, p, now, Some(parent))), Some(parent))
  {
    hide ToNearest, Steady, CalcDifficulty, ValidateDifficulty;
    AcceptedExactly(round, p, now, Some(parent));
  }

  lemma ExactRatio(round: Rounding, target: int, interval: int, half: int)
    requires ToNearest(round) && 1 <= target <= 1000 && 1 <= interval <= 1000
    requires 2 * target == half * interval && 0 <= half <= 1000
    ensures Ratio(round, target, interval) == half as real / 2.0
  {
    hide ToNearest, Representable, Pow2;
    Powers();
    IntegerRepresentable(DOUBLE, target);
    IntegerRepresentable(DOUBLE, interval);
    RoundsToItself(round, DOUBLE, target as real);
    RoundsToItself(round, DOUBLE, interval as real);
    FractionRepresentable(DOUBLE, half, 1, half as real / 2.0);
    RoundsToItself(round, DOUBLE, half as real / 2.0);
    assert (half * interval) as real == half as real * interval as real;
    assert target as real / interval as real == half as real / 2.0;
  }

  lemma OnTarget(round: Rounding)
    requires ToNearest(round)
    ensures InDeadband(round, 1.0)
  {
    hide ToNearest, Representable, Pow2;
    Powers();
    DoubleConstants(round);
    IntegerRepresentable(DOUBLE, 0);
    RoundsToItself(round, DOUBLE, 0.0);
  }

  /** The deadband can return a difficulty below the minimum, which is then rejected. */
  lemma DeadbandBelowMinimum(round: Rounding, parent: Header, now: U64)
    requires ToNearest(round) && parent == Header(Some(1), 0) && now == 60
    ensures var p := Params(60, 10);
            !ValidateDifficulty(p, Some(CalcDifficulty(round, p, now, Some(parent))), Some(parent))
  {
    hide ToNearest, InDeadband;
    W64Same(60);
    assert Interval(now, parent) == 60;
    ExactRatio(round, 60, 60, 2);
    OnTarget(round);
  }

  // ----- Longer intervals -----

  lemma Quotient(t: real, s: real, l: real)
    requires t >= 0.0 && 0.0 < s <= l
    ensures t / s >= t / l
  {
    var a, b := t / s, t / l;
    assert a * s == t && b * l == t && b >= 0.0;
    ScaleUp(s, l, b);
    assert a < b ==> (b - a) * s > 0.0;
  }

  lemma RatioMonotone(round: Rounding, target: int, short: int, long: int)
    requires ToNearest(round) && target >= 1 && 1 <= short <= long
    ensures Ratio(round, target, short) >= Ratio(round, target, long)
  {
    hide ToNearest;
    OneOrMore(round, target);
    OneOrMore(round, short);
    OneOrMore(round, long);
    NearestMonotone(round, DOUBLE, short as real, long as real);
    var t, s, l := round(DOUBLE, target as real), round(DOUBLE, short as real), round(DOUBLE, long as real);
    Quotient(t, s, l);
    NearestMonotone(round, DOUBLE, t / l, t / s);
  }

  lemma AdjustmentMonotone(round: Rounding, slow: real, fast: real)
    requires ToNearest(round) && slow <= fast
    ensures Adjustment(round, slow) <= Adjustment(round, fast)
  {
    hide ToNearest;
    var a, b := round(DOUBLE, slow - 1.0), round(DOUBLE, fast - 1.0);
    NearestMonotone(round, DOUBLE, slow - 1.0, fast - 1.0);
    NearestMonotone(round, DOUBLE, GAIN * a, GAIN * b);
    NearestMonotone(round, DOUBLE, 1.0 + round(DOUBLE, GAIN * a), 1.0 + round(DOUBLE, GAIN * b));
  }

  lemma CeiledMonotone(round: Rounding, parent: nat, a: real, b: real)
    requires ToNearest(round) && parent >= 1 && a <= b
    ensures Ceiled(round, parent, a) <= Ceiled(round, parent, b)
  {
    hide ToNearest, Precision;
    var bits, up := Precision(parent), round(DOUBLE, CEILING);
    var x, y := parent as real * a, parent as real * b;
    ScaleBound(parent, a, a, b);
    NearestMonotone(round, bits, x, y);
    NearestMonotone(round, bits, round(bits, x) + up, round(bits, y) + up);
  }

  lemma ScaledMonotone(round: Rounding, parent: nat, slow: real, fast: real)
    requires ToNearest(round) && parent >= 1 && slow <= fast
    ensures Scaled(round, parent, slow) <= Scaled(round, parent, fast)
  {
    hide ToNearest, Adjustment, Ceiled;
    var a, b := Adjustment(round, slow), Adjustment(round, fast);
    AdjustmentMonotone(round, slow, fast);
    CeiledMonotone(round, parent, a, b);
    FloorMonotone(Ceiled(round, parent, a), Ceiled(round, parent, b));
  }

  lemma FloorMonotone(x: real, y: real)
    requires x <= y
    ensures x.Floor <= y.Floor
  {
  }

  lemma NextMonotone(round: Rounding, parent: nat, slow: real, fast: real, minimum: int)
    requires ToNearest(round) && parent >= 1 && parent >= minimum && slow <= fast
    ensures Next(round, parent, slow, minimum) <= Next(round, parent, fast, minimum)
  {
    hide ToNearest, Scaled, InDeadband;
    ScaledMonotone(round, parent, slow, fast);
    ScaledDirection(round, parent, slow);
    ScaledDirection(round, parent, fast);
    BandBetween(round, slow, fast);
  }

  /** Ratios on the same side of one as a steady one, and nearer, are steady. */
  lemma BandBetween(round: Rounding, slow: real, fast: real)
    requires ToNearest(round) && slow <= fast
    ensures InDeadband(round, slow) && fast <= 1.0 ==> InDeadband(round, fast)
    ensures InDeadband(round, fast) && slow >= 1.0 ==> InDeadband(round, slow)
  {
    hide ToNearest, Representable, Pow2;
    Powers();
    IntegerRepresentable(DOUBLE, 0);
    NearestMonotone(round, DOUBLE, slow - 1.0, fast - 1.0);
    if fast <= 1.0 {
      AtMost(round, DOUBLE, fast - 1.0, 0.0);
    }
    if slow >= 1.0 {
      AtLeast(round, DOUBLE, slow - 1.0, 0.0);
    }
  }

  /**
   A longer interval gives no higher difficulty exactly when the parent is at or above the minimum,
   or the shorter interval is outside the deadband, or the longer one is inside it.
   */
  lemma LongerNeverHarder(round: Rounding, target: int, parent: nat, minimum: int, short: int, long: int)
    requires ToNearest(round) && target >= 1 && parent >= 1 && 1 <= short <= long
    ensures var fast, slow := Ratio(round, target, short), Ratio(round, target, long);
            Next(round, parent, fast, minimum) >= Next(round, parent, slow, minimum) <==>
            (parent >= minimum || !InDeadband(round, fast) || InDeadband(round, slow))
  {
    hide ToNearest, Ratio, Scaled, InDeadband;
    var fast, slow := Ratio(round, target, short), Ratio(round, target, long);
    RatioMonotone(round, target, short, long);
    ScaledMonotone(round, parent, slow, fast);
    if parent >= minimum {
      NextMonotone(round, parent, slow, fast, minimum);
    }
  }

  /** It does fail: a block slower than one in the deadband gets the minimum. */
  lemma LongerHarderBelowMinimum(round: Rounding)
    requires ToNearest(round)
    ensures Next(round, 1, Ratio(round, 60, 60), 10) < Next(round, 1, Ratio(round, 60, 120), 10)
  {
    hide ToNearest, Ratio, Scaled, InDeadband;
    ExactRatio(round, 60, 60, 2);
    ExactRatio(round, 60, 120, 1);
    OnTarget(round);
    HalfIsSlow(round);
  }

  lemma HalfIsSlow(round: Rounding)
    requires ToNearest(round)
    ensures !InDeadband(round, 0.5)
  {
    hide ToNearest, Representable, Pow2;
    Powers();
    DoubleConstants(round);
    FractionRepresentable(DOUBLE, -1, 1, -0.5);
    RoundsToItself(round, DOUBLE, -0.5);
  }

  // ----- Runs of fast blocks -----

  /** The difficulty after blocks with the given ratios. */
  function After(round: Rounding, parent: nat, ratios: seq<real>, minimum: int): nat
    decreases |ratios|
  {
    if ratios == [] then parent else After(round, Next(round, parent, ratios[0], minimum), ratios[1..], minimum)
  }

  lemma FastStep(round: Rounding, parent: nat, ratio: real, minimum: int)
    requires ToNearest(round) && parent >= 1 && parent >= minimum && Fast(round, ratio)
    ensures parent + 1 <= Next(round, parent, ratio, minimum) <= 2 * parent + 1
  {
    hide ToNearest, Scaled, Adjustment, InDeadband;
    ScaledBounds(round, parent, ratio);
    ScaledDirection(round, parent, ratio);
  }

  lemma Doubling(q: int, d: int, parent: int)
    requires q >= 1 && d <= 2 * parent + 1
    ensures q * (d + 1) <= 2 * q * (parent + 1)
  {
    assert q * (2 * (parent + 1) - (d + 1)) >= 0;
  }

  /** Blocks faster than the deadband raise the difficulty by at least one each and about double it at most. */
  lemma {:induction false} FastRun(round: Rounding, parent: nat, ratios: seq<real>, minimum: int)
    requires ToNearest(round) && parent >= 1 && parent >= minimum
    requires forall i :: 0 <= i < |ratios| ==> Fast(round, ratios[i])
    ensures parent + |ratios| <= After(round, parent, ratios, minimum) < Pow2(|ratios|) * (parent + 1)
    decreases |ratios|
  {
    hide ToNearest, Next, Fast;
    if ratios != [] {
      var d := Next(round, parent, ratios[0], minimum);
      FastStep(round, parent, ratios[0], minimum);
      FastRun(round, d, ratios[1..], minimum);
      Doubling(Pow2(|ratios| - 1), d, parent);
    }
  }
}
