/**
 The chain of products behind the matrix hash: starting from the identity, sixty-four products,
 each rounded and clamped to eight bits, and the sum of four such chains.
 */
module MatrixChain {
  import opened Bytes
  import opened FixedMatrix
  import opened BlockedMatrix

  const STEPS: nat := 32
  const ROUNDS: nat := 2

  function IdentityCell(size: nat, k: nat): int
    requires size > 0
  {
    if k / size == k % size then 1 else 0
  }

  function Identity(size: nat): (x: Ints)
    ensures |x| == size * size
  {
    seq(size * size, k requires 0 <= k < size * size => SplitIndex(size, k); IdentityCell(size, k))
  }

  lemma IdentityInt8(size: nat)
    ensures AllInt8(Identity(size))
  {
    forall k | 0 <= k < size * size
      ensures Int8(Identity(size)[k])
    {
      SplitIndex(size, k);
    }
  }

  /** Ones on the diagonal, in fixed point. */
  method NewIdentity(size: nat) returns (m: array<I64>)
    ensures fresh(m) && Represents(m[..], Identity(size))
  {
    hide At;
    m := new I64[size * size](_ => 0);
    for i := 0 to size
      invariant m.Length == size * size
      invariant forall k :: 0 <= k < m.Length ==>
                  m[k] == if k / size == k % size && k / size < i then FACTOR else 0
    {
      AtBound(size, i, i);
      DiagonalAt(size, i);
      m[At(size, i, i)] := FACTOR;
      forall k | 0 <= k < m.Length && k / size == k % size == i
        ensures k == At(size, i, i)
      {
        SplitIndex(size, k);
      }
    }
    forall k | 0 <= k < size * size
      ensures m[k] == Identity(size)[k] * FACTOR
    {
      SplitIndex(size, k);
    }
  }

  lemma DiagonalAt(size: nat, i: nat)
    requires i < size
    ensures At(size, i, i) / size == i && At(size, i, i) % size == i
  {
    Slice(size, At(size, i, i), i);
  }

  /** Rounds every cell to an integer, clamps it to eight bits and puts it back in fixed point. */
  method RoundCells(m: array<I64>, size: nat)
    requires m.Length == size * size
    modifies m
    ensures forall k :: 0 <= k < m.Length ==> m[k] == ToFixedShift(FromFixed(old(m[k])))
  {
    hide FromFixed, At;
    FirstCell(size);
    for row := 0 to size
      invariant forall k :: 0 <= k < m.Length ==>
                  m[k] == if k < At(size, row, 0) then ToFixedShift(FromFixed(old(m[k]))) else old(m[k])
    {
      for col := 0 to size
        invariant forall k :: 0 <= k < m.Length ==>
                    m[k] == if k < At(size, row, col) then ToFixedShift(FromFixed(old(m[k]))) else old(m[k])
      {
        AtBound(size, row, col);
        AtNext(size, row, col);
        FixedRange(m[At(size, row, col)]);
        m[At(size, row, col)] := ToFixedShift(FromFixed(m[At(size, row, col)]));
      }
      RowEnd(size, row);
    }
    LastRow(size);
  }

  lemma FirstCell(size: nat)
    ensures At(size, 0, 0) == 0
  {
  }

  lemma AtNext(size: nat, i: nat, j: nat)
    ensures At(size, i, j + 1) == At(size, i, j) + 1
  {
  }

  lemma RowEnd(size: nat, i: nat)
    ensures At(size, i, size) == At(size, i + 1, 0)
  {
  }

  lemma LastRow(size: nat)
    ensures At(size, size, 0) == size * size
  {
  }

  lemma FixedRange(v: I64)
    ensures -SIGN <= ToFixedShift(FromFixed(v)) < SIGN
  {
  }

  /** One step of the chain: `dst` becomes the saturating product of what `a` and `b` hold. */
  method ChainStep(dst: array<I64>, a: array<I64>, b: array<I64>, ghost x: Ints, ghost y: Ints, size: nat)
    requires dst != a && dst != b && Square(dst[..], size) && Square(a[..], size) && Square(b[..], size)
    requires size <= MAX_SIZE && Represents(a[..], x) && Represents(b[..], y) && AllInt8(x) && AllInt8(y)
    modifies dst
    ensures Represents(dst[..], SatProduct(x, y, size))
  {
    hide IsProduct, SatProduct, FromFixed;
    MulMatrixBlocked(dst, a, b, size);
    ghost var m := dst[..];
    forall k | 0 <= k < size * size
      ensures FromFixed(m[k]) == SatProduct(x, y, size)[k]
    {
      RoundedProduct(m, a[..], b[..], x, y, size, k);
    }
    RoundCells(dst, size);
  }

  /** The matrices the sequence picks, as often as it is gone through. */
  function Picks(ints: seq<Ints>, sequence: seq<Byte>, n: nat): (ms: seq<Ints>)
    requires |ints| == 256 && |sequence| == STEPS
    ensures |ms| == n
    decreases n
  {
    if n == 0 then [] else Picks(ints, sequence, n - 1) + [ints[sequence[(n - 1) % 32]]]
  }

  predicate Suitable(ints: seq<Ints>, size: nat) {
    |ints| == 256 && forall i :: 0 <= i < |ints| ==> |ints[i]| == size * size && AllInt8(ints[i])
  }

  lemma {:induction false} PicksSuitable(ints: seq<Ints>, sequence: seq<Byte>, n: nat, size: nat)
    requires Suitable(ints, size) && |sequence| == STEPS
    ensures forall m :: m in Picks(ints, sequence, n) ==> |m| == size * size
    decreases n
  {
    hide AllInt8;
    if n > 0 {
      PicksSuitable(ints, sequence, n - 1, size);
    }
  }

  /** The integers the chain arrives at after `n` steps. */
  function ChainAt(ints: seq<Ints>, sequence: seq<Byte>, n: nat, size: nat): (z: Ints)
    requires Suitable(ints, size) && |sequence| == STEPS
    ensures |z| == size * size
  {
    PicksSuitable(ints, sequence, n, size);
    Chain(Identity(size), Picks(ints, sequence, n), size)
  }

  lemma ChainNext(ints: seq<Ints>, sequence: seq<Byte>, n: nat, size: nat)
    requires Suitable(ints, size) && |sequence| == STEPS
    ensures |ints[sequence[n % STEPS]]| == size * size
    ensures ChainAt(ints, sequence, n + 1, size)
         == SatProduct(ChainAt(ints, sequence, n, size), ints[sequence[n % STEPS]], size)
  {
    hide AllInt8, SatProduct, Identity;
    PicksSuitable(ints, sequence, n, size);
    PicksSuitable(ints, sequence, n + 1, size);
    var ms := Picks(ints, sequence, n + 1);
    assert ms[..|ms| - 1] == Picks(ints, sequence, n);
    assert ms[|ms| - 1] == ints[sequence[n % STEPS]];
  }

  lemma {:induction false} ChainInt8(ints: seq<Ints>, sequence: seq<Byte>, n: nat, size: nat)
    requires Suitable(ints, size) && |sequence| == STEPS
    ensures AllInt8(ChainAt(ints, sequence, n, size))
  {
    hide AllInt8, SatProduct, Identity, ChainAt;
    if n == 0 {
      ChainStart(ints, sequence, size);
      IdentityInt8(size);
    } else {
      ChainNext(ints, sequence, n - 1, size);
      SatProductInt8(ChainAt(ints, sequence, n - 1, size), ints[sequence[(n - 1) % STEPS]], size);
    }
  }

  lemma ChainStart(ints: seq<Ints>, sequence: seq<Byte>, size: nat)
    requires Suitable(ints, size) && |sequence| == STEPS
    ensures ChainAt(ints, sequence, 0, size) == Identity(size)
  {
    hide AllInt8, SatProduct, Identity;
  }

  /** The whole chain computes the iterated saturating integer product. */
  method RunChain(mats: seq<array<I64>>, ghost ints: seq<Ints>, sequence: seq<Byte>, size: nat) returns (m: array<I64>)
    requires |mats| == |ints| && Suitable(ints, size) && |sequence| == 32 && size <= MAX_SIZE
    requires forall i :: 0 <= i < |mats| ==> Represents(mats[i][..], ints[i])
    ensures fresh(m) && Represents(m[..], ChainAt(ints, sequence, 64, size))
  {
    hide AllInt8, SatProduct, Identity, ChainAt;
    var a := NewIdentity(size);
    var b := new I64[size * size](_ => 0);
    ghost var n := 0;
    ChainStart(ints, sequence, size);
    for round := 0 to ROUNDS
      invariant n == round * STEPS
      invariant a != b && fresh(a) && fresh(b) && a.Length == b.Length == size * size
      invariant Represents(a[..], ChainAt(ints, sequence, n, size))
    {
      for k := 0 to STEPS
        invariant n == round * STEPS + k
        invariant a != b && fresh(a) && fresh(b) && a.Length == b.Length == size * size
        invariant Represents(a[..], ChainAt(ints, sequence, n, size))
      {
        var mb := mats[sequence[k]];
        assert n % STEPS == k;
        ChainInt8(ints, sequence, n, size);
        ChainNext(ints, sequence, n, size);
        ChainStep(b, a, mb, ChainAt(ints, sequence, n, size), ints[sequence[k]], size);
        a, b := b, a;
        n := n + 1;
      }
    }
    m := a;
  }

  // ----- The sum of four chains -----

  function SumOfFour(xs: seq<Ints>, k: nat): int
    requires |xs| == 4 && forall i :: 0 <= i < 4 ==> k < |xs[i]|
  {
    xs[0][k] + xs[1][k] + xs[2][k] + xs[3][k]
  }

  /** The byte that keeps an eight-bit integer in two's complement. */
  function AsByte(x: int): Byte
    requires Int8(x)
  {
    if x < 0 then x + 256 else x
  }

  /** Adds four chains cell by cell and clamps the sums to eight bits. */
  method AddChains(ms: seq<array<I64>>, ghost xs: seq<Ints>, size: nat) returns (result: seq<Byte>)
    requires |ms| == |xs| == 4
    requires forall i :: 0 <= i < 4 ==> |xs[i]| == size * size && AllInt8(xs[i]) && Represents(ms[i][..], xs[i])
    ensures |result| == size * size
    ensures forall k :: 0 <= k < size * size ==> result[k] == AsByte(Clamp(SumOfFour(xs, k)))
  {
    hide FromFixed, W64;
    result := [];
    for k := 0 to size * size
      invariant |result| == k
      invariant forall j :: 0 <= j < k ==> result[j] == AsByte(Clamp(SumOfFour(xs, j)))
    {
      var tmp: I64 := 0;
      FourExact(xs[0][k], xs[1][k], xs[2][k], xs[3][k]);
      for i := 0 to 4
        invariant i == 0 ==> tmp == 0
        invariant i == 1 ==> tmp == xs[0][k] * FACTOR
        invariant i == 2 ==> tmp == (xs[0][k] + xs[1][k]) * FACTOR
        invariant i == 3 ==> tmp == (xs[0][k] + xs[1][k] + xs[2][k]) * FACTOR
        invariant i == 4 ==> tmp == SumOfFour(xs, k) * FACTOR
      {
        tmp := W64(tmp + ms[i][k]);
      }
      FromFixedExact(SumOfFour(xs, k));
      result := result + [AsByte(FromFixed(tmp))];
    }
  }

  lemma FourExact(p: int, q: int, r: int, s: int)
    requires Int8(p) && Int8(q) && Int8(r) && Int8(s)
    ensures W64(0 + p * FACTOR) == p * FACTOR
    ensures W64(p * FACTOR + q * FACTOR) == (p + q) * FACTOR
    ensures W64((p + q) * FACTOR + r * FACTOR) == (p + q + r) * FACTOR
    ensures W64((p + q + r) * FACTOR + s * FACTOR) == (p + q + r + s) * FACTOR
  {
    W64Same(p * FACTOR);
    W64Same((p + q) * FACTOR);
    W64Same((p + q + r) * FACTOR);
    W64Same((p + q + r + s) * FACTOR);
  }
}
