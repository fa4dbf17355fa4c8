/**
 How large the computed difficulty is: the parent's, times one plus half the deviation of the ratio
 from one, within a half and two, up to one and a stated rounding error.
 */
module DifficultyValue {
  import opened Bytes
  import opened Difficulty
  import opened Floats
  import opened PowersOfTwo
  import opened Wrappers

  /** So many times two to the minus fifty-third. */
  function Ulps(x: real): real {
    x / 9007199254740992.0
  }

  /** So many times two to the minus sixty-fourth. */
  function Ulps64(x: real): real {
    x / 18446744073709551616.0
  }

  /** A product of reals, by name. */
  function Times(a: real, b: real): real {
    a * b
  }

  lemma TimesBounds(p: real, low: real, a: real, high: real)
    requires p >= 0.0 && low <= a <= high
    ensures Times(p, low) <= Times(p, a) <= Times(p, high)
  {
    assert p * (a - low) >= 0.0 && p * (high - a) >= 0.0;
  }

  lemma TimesHalfTwice(p: real)
    ensures Times(p, 0.5) == p / 2.0 && Times(p, 2.0) == 2.0 * p
  {
  }

  /** A factor that is off by some units makes the product off by as many times the other factor. */
  lemma TimesNear(p: real, a: real, b: real, units: real)
    requires p >= 0.0 && Abs(a - b) <= Ulps(units)
    ensures Abs(Times(p, a) - Times(p, b)) <= Ulps(Times(p, units))
  {
    var most := Ulps(units);
    assert p * (most - (a - b)) >= 0.0 && p * (most + (a - b)) >= 0.0;
    assert p * most == Ulps(p * units);
  }

  lemma TimesLiteral(p: real)
    ensures Times(p, 3.0) == 3.0 * p && Times(p, 12.0) == 12.0 * p
  {
  }

  lemma TimesQuotient(a: real, b: real)
    requires b > 0.0
    ensures Times(a / b, b) == a && (a > 0.0 ==> a / b > 0.0)
  {
  }

  lemma TimesDouble(x: real, b: real)
    ensures Times(x, 2.0 * b) == 2.0 * Times(x, b)
  {
  }

  lemma TimesMinus(q: real, x: real, b: real)
    ensures Times(q - x, b) == Times(q, b) - Times(x, b)
  {
  }

  lemma TimesDivide(d: real, b: real, x: real)
    requires b > 0.0 && Abs(Times(d, b)) <= Ulps(4.0 * Times(x, b))
    ensures Abs(d) <= Ulps(4.0 * x)
  {
    var most := Ulps(4.0 * x);
    assert most * b == Ulps(4.0 * (x * b));
    Dividing(d, b, most);
  }

  lemma Dividing(d: real, b: real, most: real)
    requires b > 0.0 && -(most * b) <= d * b <= most * b
    ensures Abs(d) <= most
  {
    assert (most - d) * b >= 0.0 && (most + d) * b >= 0.0;
  }

  /** The factor without rounding: half of one plus the ratio, within a half and two. */
  function Ideal(ratio: real): real {
    if ratio <= 0.0 then 0.5 else if ratio >= 3.0 then 2.0 else (1.0 + ratio) / 2.0
  }

  // ----- The adjustment -----

  lemma Divided(e: real, scale: real, least: real, most: real)
    requires e >= 0.0 && scale >= least > 0.0 && e * scale <= most
    ensures e <= most / least
  {
    assert e * (scale - least) >= 0.0;
    assert e * least <= most;
  }

  /** A double within two of zero is rounded by at most two units in the fifty-third place. */
  lemma DoubleError(round: Rounding, x: real, most: real)
    requires ToNearest(round) && Abs(x) <= most
    ensures Abs(round(DOUBLE, x) - x) <= Ulps(most)
  {
    hide ToNearest, Pow2;
    Powers();
    RelativeError(round, DOUBLE, x);
    Divided(Abs(round(DOUBLE, x) - x), Pow2(DOUBLE) as real, 9007199254740992.0, most);
  }

  lemma WideError(round: Rounding, bits: nat, x: real, most: real)
    requires ToNearest(round) && bits >= WIDE && Abs(x) <= most
    ensures Abs(round(bits, x) - x) <= Ulps64(most)
  {
    hide ToNearest, Pow2;
    Powers();
    Pow2Grows(WIDE, bits);
    RelativeError(round, bits, x);
    Divided(Abs(round(bits, x) - x), Pow2(bits) as real, 18446744073709551616.0, most);
  }

  lemma HalfExact(round: Rounding, x: real)
    requires ToNearest(round)
    ensures round(DOUBLE, GAIN * round(DOUBLE, x)) == round(DOUBLE, x) / 2.0
  {
    hide ToNearest, Representable;
    RoundedRepresentable(round, DOUBLE, x);
    HalfRepresentable(DOUBLE, round(DOUBLE, x));
    RoundsToItself(round, DOUBLE, round(DOUBLE, x) / 2.0);
    assert GAIN * round(DOUBLE, x) == round(DOUBLE, x) / 2.0;
  }

  /** The double that the ratio's deviation from one is rounded to stays within the same bounds. */
  lemma OffsetSide(round: Rounding, ratio: real)
    requires ToNearest(round)
    ensures var a := round(DOUBLE, ratio - 1.0);
      && (ratio >= 0.0 ==> a >= -1.0) && (ratio <= 0.0 ==> a <= -1.0)
      && (ratio <= 3.0 ==> a <= 2.0) && (ratio >= 3.0 ==> a >= 2.0)
  {
    hide ToNearest, Representable, Pow2;
    Powers();
    IntegerRepresentable(DOUBLE, -1);
    IntegerRepresentable(DOUBLE, 2);
    var x := ratio - 1.0;
    if x >= -1.0 { AtLeast(round, DOUBLE, x, -1.0); }
    if x <= -1.0 { AtMost(round, DOUBLE, x, -1.0); }
    if x <= 2.0 { AtMost(round, DOUBLE, x, 2.0); }
    if x >= 2.0 { AtLeast(round, DOUBLE, x, 2.0); }
  }

  lemma SumSide(round: Rounding, y: real)
    requires ToNearest(round)
    ensures (y >= 0.5 ==> round(DOUBLE, y) >= 0.5) && (y <= 0.5 ==> round(DOUBLE, y) <= 0.5)
    ensures (y <= 2.0 ==> round(DOUBLE, y) <= 2.0) && (y >= 2.0 ==> round(DOUBLE, y) >= 2.0)
  {
    hide ToNearest, Representable, Pow2;
    Powers();
    FractionRepresentable(DOUBLE, 1, 1, 0.5);
    IntegerRepresentable(DOUBLE, 2);
    if y >= 0.5 { AtLeast(round, DOUBLE, y, 0.5); }
    if y <= 0.5 { AtMost(round, DOUBLE, y, 0.5); }
    if y <= 2.0 { AtMost(round, DOUBLE, y, 2.0); }
    if y >= 2.0 { AtLeast(round, DOUBLE, y, 2.0); }
  }

  /** The adjustment is the ideal factor up to three units in the fifty-third place. */
  lemma AdjustmentNear(round: Rounding, ratio: real)
    requires ToNearest(round)
    ensures Abs(Adjustment(round, ratio) - Ideal(ratio)) <= Ulps(3.0)
  {
    hide ToNearest;
    var a := round(DOUBLE, ratio - 1.0);
    var y := 1.0 + a / 2.0;
    HalfExact(round, ratio - 1.0);
    OffsetSide(round, ratio);
    SumSide(round, y);
    if 0.0 <= ratio <= 3.0 {
      DoubleError(round, ratio - 1.0, 2.0);
      DoubleError(round, y, 2.0);
    }
  }

  // ----- The scaled difficulty -----

  lemma CeiledIs(round: Rounding, parent: nat, adj: real)
    ensures var bits := Precision(parent);
      Ceiled(round, parent, adj) == round(bits, round(bits, Times(parent as real, adj)) + round(DOUBLE, CEILING))
  {
  }

  /** Scaling and rounding up adds less than one, up to the rounding. */
  lemma CeiledNear(round: Rounding, parent: nat, adj: real)
    requires ToNearest(round) && parent >= 1 && 0.5 <= adj <= 2.0
    ensures var exact, error := Times(parent as real, adj), Ulps64(6.0 * parent as real);
      exact - error <= Ceiled(round, parent, adj) <= exact + 1.0 + error
  {
    hide ToNearest, Precision, Ceiled, Times;
    var bits, p, up := Precision(parent), parent as real, round(DOUBLE, CEILING);
    var exact := Times(p, adj);
    var product := round(bits, exact);
    DoubleConstants(round);
    TimesBounds(p, 0.5, adj, 2.0);
    TimesHalfTwice(p);
    WideError(round, bits, exact, 2.0 * p);
    SumNear(p, exact, product, up);
    WideError(round, bits, product + up, 4.0 * p);
    Totals(p, exact, product, up, round(bits, product + up));
    CeiledIs(round, parent, adj);
  }

  lemma Totals(p: real, exact: real, product: real, up: real, last: real)
    requires Abs(product - exact) <= Ulps64(2.0 * p) && Abs(last - (product + up)) <= Ulps64(4.0 * p)
    requires 0.0 <= up <= 1.0
    ensures exact - Ulps64(6.0 * p) <= last <= exact + 1.0 + Ulps64(6.0 * p)
  {
  }

  lemma SumNear(p: real, exact: real, product: real, up: real)
    requires p >= 1.0 && 0.0 <= exact <= 2.0 * p && Abs(product - exact) <= Ulps64(2.0 * p) && 0.0 <= up <= 1.0
    ensures Abs(product + up) <= 4.0 * p
  {
    assert Ulps64(2.0 * p) <= 0.5 * p;
  }

  /** What the rounding can add or take away: two to the minus fifty-first of the parent's difficulty. */
  function Slack(parent: nat): real {
    Ulps(4.0 * parent as real)
  }

  /**
   The scaled difficulty is the parent's times the ideal factor, up to one and two to the minus
   fifty-first of the parent's; and never less than half the parent's.
   */
  lemma ScaledNear(round: Rounding, parent: nat, ratio: real)
    requires ToNearest(round) && parent >= 1
    ensures Abs(Scaled(round, parent, ratio) as real - Times(parent as real, Ideal(ratio))) <= 1.0 + Slack(parent)
    ensures 2 * Scaled(round, parent, ratio) >= parent
  {
    hide ToNearest, Ceiled, Adjustment, Ideal, Times;
    var adj, p := Adjustment(round, ratio), parent as real;
    var exact, near := Times(p, Ideal(ratio)), Times(p, adj);
    AdjustmentNear(round, ratio);
    IdealBounds(ratio);
    CeiledNear(round, parent, adj);
    TimesNear(p, adj, Ideal(ratio), 3.0);
    TimesLiteral(p);
    TimesBounds(p, 0.5, Ideal(ratio), 2.0);
    TimesHalfTwice(p);
    SlackEnough(p, exact, near, Ceiled(round, parent, adj));
    Floored(Ceiled(round, parent, adj), exact, Slack(parent));
    AtLeastHalf(round, parent, adj);
  }

  lemma SlackEnough(p: real, exact: real, near: real, x: real)
    requires p >= 1.0 && Abs(near - exact) <= Ulps(3.0 * p)
    requires near - Ulps64(6.0 * p) <= x <= near + 1.0 + Ulps64(6.0 * p)
    ensures exact - Ulps(4.0 * p) <= x <= exact + 1.0 + Ulps(4.0 * p)
  {
  }

  lemma IdealBounds(ratio: real)
    ensures 0.5 <= Ideal(ratio) <= 2.0
  {
  }

  lemma Floored(x: real, exact: real, slack: real)
    requires exact >= 0.5 && slack >= 0.0 && exact - slack <= x <= exact + 1.0 + slack
    ensures var n := if x.Floor <= 0 then 1 else x.Floor; Abs(n as real - exact) <= 1.0 + slack
  {
  }

  lemma AtLeastHalf(round: Rounding, parent: nat, adj: real)
    requires ToNearest(round) && parent >= 1 && 0.5 <= adj <= 2.0
    ensures 2 * Ceiled(round, parent, adj).Floor >= parent
  {
    hide ToNearest, Representable, Pow2, Precision, Ceiled, Times;
    var bits, p, up := Precision(parent), parent as real, round(DOUBLE, CEILING);
    var exact, n := Times(p, adj), (parent + 1) / 2;
    PrecisionHolds(parent);
    DoubleConstants(round);
    TimesBounds(p, 0.5, adj, 2.0);
    TimesHalfTwice(p);
    IntegerRepresentable(bits, parent);
    HalfRepresentable(bits, p);
    AtLeast(round, bits, exact, p / 2.0);
    IntegerRepresentable(bits, n);
    HalfUp(parent);
    AtLeast(round, bits, round(bits, exact) + up, n as real);
    CeiledIs(round, parent, adj);
    FloorMonotone(n as real, Ceiled(round, parent, adj));
    assert (n as real).Floor == n;
  }

  lemma HalfUp(parent: nat)
    ensures ((parent + 1) / 2) as real <= parent as real / 2.0 + 0.5
  {
    assert 2 * ((parent + 1) / 2) <= parent + 1;
  }

  // ----- The deadband -----

  lemma FarOffset(round: Rounding, x: real)
    requires ToNearest(round)
    ensures x >= 1.0 ==> round(DOUBLE, x) >= 1.0
    ensures x <= -1.0 ==> round(DOUBLE, x) <= -1.0
  {
    hide ToNearest, Representable, Pow2;
    Powers();
    IntegerRepresentable(DOUBLE, 1);
    IntegerRepresentable(DOUBLE, -1);
    if x >= 1.0 { AtLeast(round, DOUBLE, x, 1.0); }
    if x <= -1.0 { AtMost(round, DOUBLE, x, -1.0); }
  }

  /** The deadband is five hundredths either way, up to two units in the fifty-third place, its edge left out. */
  lemma DeadbandNear(round: Rounding, ratio: real)
    requires ToNearest(round)
    ensures Abs(ratio - 1.0) <= 0.05 - Ulps(2.0) ==> InDeadband(round, ratio)
    ensures Abs(ratio - 1.0) >= 0.05 + Ulps(2.0) ==> !InDeadband(round, ratio)
    ensures round(DOUBLE, ratio - 1.0) == round(DOUBLE, 0.05) ==> !InDeadband(round, ratio)
  {
    hide ToNearest;
    DoubleError(round, DEADBAND, 0.5);
    FarOffset(round, ratio - 1.0);
    if Abs(ratio - 1.0) <= 1.0 {
      DoubleError(round, ratio - 1.0, 1.0);
    }
  }

  // ----- From the interval -----

  /** A quotient of two rounded numbers. */
  lemma QuotientNear(t: real, i: real, rt: real, ri: real)
    requires t > 0.0 && i > 0.0 && Abs(rt - t) <= Ulps(t) && Abs(ri - i) <= Ulps(i)
    ensures ri > 0.0 && Abs(rt / ri - t / i) <= Ulps(4.0 * (t / i))
  {
    hide Times;
    var x, q := t / i, rt / ri;
    TimesQuotient(t, i);
    TimesQuotient(rt, ri);
    TimesNear(x, i, ri, i);
    TimesBounds(x, 0.0, i, 2.0 * ri);
    TimesDouble(x, ri);
    OffBy(Times(x, ri), t, rt);
    TimesMinus(q, x, ri);
    TimesDivide(q - x, ri, x);
  }

  /** `w` is the rounded product, `t` the plain one, `rt` the rounded dividend. */
  lemma OffBy(w: real, t: real, rt: real)
    requires t > 0.0 && t <= 2.0 * w && Abs(t - w) <= Ulps(t) && Abs(rt - t) <= Ulps(t)
    ensures Abs(rt - w) <= Ulps(4.0 * w)
  {
  }

  lemma OwnError(round: Rounding, x: real)
    requires ToNearest(round) && x >= 0.0
    ensures Abs(round(DOUBLE, x) - x) <= Ulps(x)
  {
    hide ToNearest;
    DoubleError(round, x, x);
  }

  /** The ratio is the target over the interval, up to six units in the fifty-third place. */
  lemma RatioNear(round: Rounding, target: int, interval: int)
    requires ToNearest(round) && target >= 1 && interval >= 1
    ensures var x := target as real / interval as real;
      x > 0.0 && Abs(Ratio(round, target, interval) - x) <= Ulps(6.0 * x)
  {
    hide ToNearest, Times;
    var t, i := target as real, interval as real;
    var rt, ri := round(DOUBLE, t), round(DOUBLE, i);
    OneOrMore(round, target);
    OneOrMore(round, interval);
    OwnError(round, t);
    OwnError(round, i);
    QuotientNear(t, i, rt, ri);
    var x, q := t / i, rt / ri;
    TimesQuotient(t, i);
    TimesQuotient(rt, ri);
    OwnError(round, q);
    assert q <= 2.0 * x;
  }

  lemma IdealNear(ratio: real, x: real)
    requires x > 0.0 && Abs(ratio - x) <= Ulps(6.0 * x)
    ensures Abs(Ideal(ratio) - Ideal(x)) <= Ulps(12.0)
  {
    if x > 4.0 {
      assert Ulps(6.0 * x) <= x / 4.0;
    }
  }

  /** Near an outcome: the rounding allows one and two to the minus forty-ninth of the parent's difficulty. */
  predicate Near(result: int, parent: nat, factor: real) {
    Abs(result as real - Times(parent as real, factor)) <= 1.0 + Ulps(16.0 * parent as real)
  }

  lemma ScaledFromInterval(round: Rounding, parent: nat, target: int, interval: int)
    requires ToNearest(round) && parent >= 1 && target >= 1 && interval >= 1
    ensures Near(Scaled(round, parent, Ratio(round, target, interval)), parent, Ideal(target as real / interval as real))
  {
    hide ToNearest, Scaled, Ratio, Ideal, Times;
    var x, ratio, p := target as real / interval as real, Ratio(round, target, interval), parent as real;
    RatioNear(round, target, interval);
    IdealNear(ratio, x);
    ScaledNear(round, parent, ratio);
    TimesNear(p, Ideal(ratio), Ideal(x), 12.0);
    TimesLiteral(p);
    Combined(Scaled(round, parent, ratio) as real, Times(p, Ideal(ratio)), Times(p, Ideal(x)), p);
  }

  lemma Combined(r: real, a: real, b: real, p: real)
    requires Abs(r - a) <= 1.0 + Ulps(4.0 * p) && Abs(a - b) <= Ulps(12.0 * p)
    ensures Abs(r - b) <= 1.0 + Ulps(16.0 * p)
  {
  }

  /** For times below two to the sixty-third the interval is the plain difference, at least one. */
  lemma IntervalExact(now: U64, parent: Header)
    requires now < TWO63 && parent.time < TWO63
    ensures Interval(now, parent) == if now - parent.time < 1 then 1 else now - parent.time
  {
    W64Same(now - parent.time);
  }

  /**
   The difficulty of a block, from the interval and the parent's difficulty: unchanged within five
   hundredths of the target, otherwise near the parent's times half of one plus target over
   interval, between a half and two, unless that is below the minimum, which it then is.
   */
  lemma CalcNear(round: Rounding, p: Params, now: U64, parent: Header, target: int)
    requires ToNearest(round) && parent.difficulty.Some?
    requires target == if p.targetSeconds <= 0 then 60 else p.targetSeconds
    ensures var d := if parent.difficulty.value <= 0 then 1 else parent.difficulty.value;
      var x := target as real / Interval(now, parent) as real;
      var c := CalcDifficulty(round, p, now, Some(parent));
      && (Abs(x - 1.0) <= 0.05 - Ulps(16.0) ==> c == d)
      && (Abs(x - 1.0) >= 0.05 + Ulps(16.0) ==>
            exists r: nat :: Near(r, d, Ideal(x)) && c == if p.minDifficulty > 0 && r < p.minDifficulty then p.minDifficulty else r)
  {
    hide ToNearest, Ratio, Scaled, InDeadband, Interval, Near, Ideal;
    var d: nat := if parent.difficulty.value <= 0 then 1 else parent.difficulty.value;
    var i := Interval(now, parent);
    var ratio, x := Ratio(round, target, i), target as real / i as real;
    ScaledFromInterval(round, d, target, i);
    DeadbandNear(round, ratio);
    RatioNear(round, target, i);
    BandShift(ratio, x);
    assert Near(Scaled(round, d, ratio), d, Ideal(x));
  }

  lemma BandShift(ratio: real, x: real)
    requires x > 0.0 && Abs(ratio - x) <= Ulps(6.0 * x)
    ensures Abs(x - 1.0) <= 0.05 - Ulps(16.0) ==> Abs(ratio - 1.0) <= 0.05 - Ulps(2.0)
    ensures Abs(x - 1.0) >= 0.05 + Ulps(16.0) ==> Abs(ratio - 1.0) >= 0.05 + Ulps(2.0)
  {
    if x > 2.0 {
      assert Ulps(6.0 * x) <= x / 4.0;
    }
  }

  // ----- An example -----

  /** A parent of 1000 with a block after forty seconds instead of sixty leads to exactly 1250. */
  lemma FortySeconds(round: Rounding)
    requires ToNearest(round)
    ensures Ratio(round, 60, 40) == 1.5 && Scaled(round, 1000, 1.5) == 1250
  {
    hide ToNearest, Representable, Pow2;
    Powers();
    DoubleConstants(round);
    ExactRatio(round, 60, 40, 3);
    ExactHalf(round, 1);
    ExactQuarter(round, 1);
    ExactQuarter(round, 5);
    var bits := Precision(1000);
    PrecisionHolds(1000);
    IntegerRepresentable(bits, 1250);
    RoundsToItself(round, bits, 1250.0);
    AtLeast(round, bits, 1250.0 + round(DOUBLE, CEILING), 1250.0);
    FractionRepresentable(bits, 1251 * 524288 - 1, 19, 1251.0 - 1.0 / 524288.0);
    NoFarther(round, bits, 1250.0 + round(DOUBLE, CEILING), 1251.0 - 1.0 / 524288.0);
  }

  lemma ExactHalf(round: Rounding, n: int)
    requires ToNearest(round) && 0 <= n <= 8
    ensures round(DOUBLE, n as real / 2.0) == n as real / 2.0
  {
    hide ToNearest, Representable, Pow2;
    Powers();
    FractionRepresentable(DOUBLE, n, 1, n as real / 2.0);
    RoundsToItself(round, DOUBLE, n as real / 2.0);
  }

  lemma ExactQuarter(round: Rounding, n: int)
    requires ToNearest(round) && 0 <= n <= 8
    ensures round(DOUBLE, n as real / 4.0) == n as real / 4.0
  {
    hide ToNearest, Representable, Pow2;
    Powers();
    FractionRepresentable(DOUBLE, 16 * n, 6, n as real / 4.0);
    RoundsToItself(round, DOUBLE, n as real / 4.0);
  }
}
