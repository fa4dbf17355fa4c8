/**
 Matrix products in 64-bit fixed point with 24 fractional bits: what each cell is by the naive
 definition, with every wrap-around, and when the result is exact.
 */
module FixedMatrix {
  import opened Bytes

  const FACTOR: int := 0x100_0000
  const HALF: int := 0x80_0000

  /** One rounded product; shifting a signed word right rounds down. */
  function Term(x: I64, y: I64): I64 {
    W64(W64(x * y) + HALF) / FACTOR
  }

  /** Without a wrap-around a term is the product divided by 2^24, rounded to the nearest, halves up. */
  lemma TermNearest(x: I64, y: I64)
    requires -0x8000_0000_0000_0000 <= x * y <= 0x7fff_ffff_ff7f_ffff
    ensures -0x80_0000 <= x * y - Term(x, y) * 0x100_0000 < 0x80_0000
  {
    var p := x * y;
    W64Same(p);
    W64Same(p + HALF);
    assert (p + HALF) / FACTOR * FACTOR + (p + HALF) % FACTOR == p + HALF;
  }

  lemma TermZero(y: I64)
    ensures Term(0, y) == 0
  {
    assert 0 * y == 0;
  }

  /** The position of a cell in the flattened matrix. */
  function At(size: nat, i: nat, j: nat): nat {
    i * size + j
  }

  lemma AtBound(size: nat, i: nat, j: nat)
    requires i < size && j < size
    ensures At(size, i, j) < size * size
  {
    assert (i + 1) * size <= size * size;
  }

  lemma RowsApart(size: nat, i: nat, j: nat, i': nat, j': nat)
    requires i < i' && j < size
    ensures At(size, i, j) < At(size, i', j')
  {
    assert (i + 1) * size <= i' * size;
  }

  lemma AtInjective(size: nat, i: nat, j: nat, i': nat, j': nat)
    requires j < size && j' < size && At(size, i, j) == At(size, i', j')
    ensures i == i' && j == j'
  {
    if i < i' {
      RowsApart(size, i, j, i', j');
    } else if i' < i {
      RowsApart(size, i', j', i, j);
    }
  }

  type Cells = seq<I64>

  predicate Square(m: Cells, size: nat) {
    |m| == size * size
  }

  function Cell(m: Cells, size: nat, i: nat, j: nat): I64
    requires Square(m, size) && i < size && j < size
  {
    AtBound(size, i, j);
    m[At(size, i, j)]
  }

  /** The sum of the first `n` terms of a cell, in the order of the naive loop. */
  function Sum(a: Cells, b: Cells, size: nat, i: nat, j: nat, n: nat): I64
    requires Square(a, size) && Square(b, size) && i < size && j < size && n <= size
    decreases n
  {
    if n == 0 then 0
    else W64(Sum(a, b, size, i, j, n - 1) + Term(Cell(a, size, i, n - 1), Cell(b, size, n - 1, j)))
  }

  /** `m` is the product of `a` and `b`. */
  ghost predicate IsProduct(m: Cells, a: Cells, b: Cells, size: nat)
    requires Square(m, size) && Square(a, size) && Square(b, size)
  {
    forall i: nat, j: nat :: i < size && j < size ==> Cell(m, size, i, j) == Sum(a, b, size, i, j, size)
  }

  // ----- Integers in fixed point -----

  function Clamp(x: int): (r: int)
    ensures -128 <= r <= 127
    ensures -128 <= x <= 127 ==> r == x
  {
    if x > 127 then 127 else if x < -128 then -128 else x
  }

  function FromFixed(v: I64): int {
    Clamp(W64(v + HALF) / FACTOR)
  }

  /** Rounding to the nearest integer, halves up, then clamping to eight bits. */
  lemma FromFixedNearest(v: I64, r: int)
    requires v <= 0x7fff_ffff_ff7f_ffff && -0x80_0000 <= v - r * 0x100_0000 < 0x80_0000
    ensures FromFixed(v) == Clamp(r)
  {
    W64Same(v + HALF);
    var q := (v + HALF) / FACTOR;
    assert q * FACTOR + (v + HALF) % FACTOR == v + HALF;
  }

  function ToFixedShift(v: int): int {
    v * FACTOR
  }

  predicate Int8(x: int) {
    -128 <= x <= 127
  }

  type Ints = seq<int>

  function IntCell(m: Ints, size: nat, i: nat, j: nat): int
    requires |m| == size * size && i < size && j < size
  {
    AtBound(size, i, j);
    m[At(size, i, j)]
  }

  predicate AllInt8(m: Ints) {
    forall k :: 0 <= k < |m| ==> Int8(m[k])
  }

  /** `m` holds the integers of `x` in fixed point. */
  predicate Represents(m: Cells, x: Ints) {
    |m| == |x| && forall k :: 0 <= k < |x| ==> m[k] == x[k] * 0x100_0000
  }

  /** The first `n` terms of an integer dot product. */
  function Dot(x: Ints, y: Ints, size: nat, i: nat, j: nat, n: nat): int
    requires |x| == size * size && |y| == size * size && i < size && j < size && n <= size
    decreases n
  {
    if n == 0 then 0
    else Dot(x, y, size, i, j, n - 1) + IntCell(x, size, i, n - 1) * IntCell(y, size, n - 1, j)
  }

  lemma MulMonotone(p: int, q: int, r: int)
    requires p <= q && r >= 0
    ensures p * r <= q * r
  {
    assert (q - p) * r >= 0;
  }

  lemma SmallProduct(p: int, q: int)
    requires Int8(p) && Int8(q)
    ensures -0x4000 <= p * q <= 0x4000
  {
    var r := if q >= 0 then q else -q;
    MulMonotone(-128, p, r);
    MulMonotone(p, 127, r);
    assert p * q == if q >= 0 then p * r else -(p * r);
  }

  /** The product of two such fixed-point numbers is exact: nothing wraps and nothing is rounded. */
  lemma TermExact(p: int, q: int)
    requires Int8(p) && Int8(q)
    ensures Term(p * FACTOR, q * FACTOR) == p * q * FACTOR
  {
    SmallProduct(p, q);
    var d := p * q;
    assert (p * FACTOR) * (q * FACTOR) == d * FACTOR * FACTOR by { Rearrange(p, q); }
    ShiftExact(d);
  }

  lemma Rearrange(p: int, q: int)
    ensures (p * FACTOR) * (q * FACTOR) == p * q * FACTOR * FACTOR
  {
  }

  lemma ShiftExact(d: int)
    requires -0x4000 <= d <= 0x4000
    ensures W64(W64(d * FACTOR * FACTOR) + HALF) / FACTOR == d * FACTOR
  {
    var x := d * FACTOR * FACTOR;
    W64Same(x);
    W64Same(x + HALF);
    assert x + HALF == (d * FACTOR) * FACTOR + HALF;
  }

  lemma {:induction false} DotBound(x: Ints, y: Ints, size: nat, i: nat, j: nat, n: nat)
    requires |x| == size * size && |y| == size * size && i < size && j < size && n <= size
    requires AllInt8(x) && AllInt8(y)
    ensures -0x4000 * n <= Dot(x, y, size, i, j, n) <= 0x4000 * n
    decreases n
  {
    hide At;
    if n > 0 {
      DotBound(x, y, size, i, j, n - 1);
      AtBound(size, i, n - 1);
      AtBound(size, n - 1, j);
      SmallProduct(IntCell(x, size, i, n - 1), IntCell(y, size, n - 1, j));
    }
  }

  const MAX_SIZE: nat := 0x100_0000

  lemma AddExact(d: int, t: int, n: nat)
    requires n <= MAX_SIZE && -0x4000 * n <= d + t <= 0x4000 * n
    ensures W64(d * FACTOR + t * FACTOR) == (d + t) * FACTOR
  {
    W64Same((d + t) * FACTOR);
  }

  /** On integers in fixed point every cell of the product is the exact dot product. */
  lemma {:induction false} SumExact(a: Cells, b: Cells, x: Ints, y: Ints, size: nat, i: nat, j: nat, n: nat)
    requires Square(a, size) && Square(b, size) && i < size && j < size && n <= size <= MAX_SIZE
    requires Represents(a, x) && Represents(b, y) && AllInt8(x) && AllInt8(y)
    ensures Sum(a, b, size, i, j, n) == Dot(x, y, size, i, j, n) * FACTOR
    decreases n
  {
    hide At, Term, W64;
    if n == 0 {
    } else {
      SumExact(a, b, x, y, size, i, j, n - 1);
      AtBound(size, i, n - 1);
      AtBound(size, n - 1, j);
      var p, q := IntCell(x, size, i, n - 1), IntCell(y, size, n - 1, j);
      TermExact(p, q);
      DotBound(x, y, size, i, j, n);
      AddExact(Dot(x, y, size, i, j, n - 1), p * q, n);
    }
  }

  lemma FromFixedExact(d: int)
    requires -0x40_0000_0000 <= d <= 0x40_0000_0000
    ensures FromFixed(d * FACTOR) == Clamp(d)
  {
    W64Same(d * FACTOR + HALF);
  }

  // ----- The saturating integer product -----

  lemma SplitIndex(size: nat, k: nat)
    requires k < size * size
    ensures size > 0 && k / size < size && k % size < size && At(size, k / size, k % size) == k
  {
    assert size > 0;
    var i := k / size;
    assert k == i * size + k % size;
    if i >= size {
      MulMonotone(size, i, size);
    }
  }

  function SatCell(x: Ints, y: Ints, size: nat, k: nat): int
    requires |x| == size * size && |y| == size * size && k < size * size
  {
    SplitIndex(size, k);
    Clamp(Dot(x, y, size, k / size, k % size, size))
  }

  /** The product of two integer matrices, every cell clamped to eight bits. */
  function SatProduct(x: Ints, y: Ints, size: nat): (z: Ints)
    requires |x| == size * size && |y| == size * size
    ensures |z| == size * size
  {
    seq(size * size, k requires 0 <= k < size * size => SatCell(x, y, size, k))
  }

  lemma SatProductInt8(x: Ints, y: Ints, size: nat)
    requires |x| == size * size && |y| == size * size
    ensures AllInt8(SatProduct(x, y, size))
  {
    hide Dot;
    forall k | 0 <= k < size * size
      ensures Int8(SatProduct(x, y, size)[k])
    {
      SplitIndex(size, k);
    }
  }

  /** Successive saturating products from the left. */
  function Chain(x: Ints, ms: seq<Ints>, size: nat): (z: Ints)
    requires |x| == size * size && forall m :: m in ms ==> |m| == size * size
    ensures |z| == size * size
    decreases |ms|
  {
    if ms == [] then x else SatProduct(Chain(x, ms[..|ms| - 1], size), ms[|ms| - 1], size)
  }

  /** A fixed-point product whose cells are rounded and clamped is the saturating integer product. */
  lemma RoundedProduct(m: Cells, a: Cells, b: Cells, x: Ints, y: Ints, size: nat, k: nat)
    requires Square(m, size) && Square(a, size) && Square(b, size) && size <= MAX_SIZE && k < size * size
    requires IsProduct(m, a, b, size)
    requires Represents(a, x) && Represents(b, y) && AllInt8(x) && AllInt8(y)
    ensures FromFixed(m[k]) == SatProduct(x, y, size)[k]
  {
    hide At, Dot, Sum, FromFixed;
    SplitIndex(size, k);
    var i, j := k / size, k % size;
    assert m[k] == Cell(m, size, i, j);
    SumExact(a, b, x, y, size, i, j, size);
    DotBound(x, y, size, i, j, size);
    FromFixedExact(Dot(x, y, size, i, j, size));
  }
}
