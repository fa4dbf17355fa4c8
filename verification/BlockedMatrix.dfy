/** The matrix loops, in place on flattened arrays, proved against the naive cell sums. */
module BlockedMatrix {
  import opened Bytes
  import opened FixedMatrix

  const BLOCK: nat := 32

  /** The cells of some rows and columns hold their sums up to `n` terms. */
  ghost predicate Filled(d: Cells, a: Cells, b: Cells, size: nat, i0: nat, i1: nat, j0: nat, j1: nat, n: nat)
    requires Square(d, size) && Square(a, size) && Square(b, size) && i1 <= size && j1 <= size && n <= size
  {
    forall i: nat, j: nat :: i0 <= i < i1 && j0 <= j < j1 ==> Cell(d, size, i, j) == Sum(a, b, size, i, j, n)
  }

  /** Two matrices agree outside some rows and columns. */
  ghost predicate SameOutside(d: Cells, e: Cells, size: nat, i0: nat, i1: nat, j0: nat, j1: nat)
    requires Square(d, size) && Square(e, size)
  {
    forall i: nat, j: nat :: i < size && j < size && !(i0 <= i < i1 && j0 <= j < j1) ==>
      Cell(d, size, i, j) == Cell(e, size, i, j)
  }

  lemma SetCell(d: Cells, size: nat, i: nat, j: nat, v: I64, p: nat, q: nat)
    requires Square(d, size) && i < size && j < size && p < size && q < size
    ensures At(size, i, j) < |d|
    ensures Cell(d[At(size, i, j) := v], size, p, q) == if p == i && q == j then v else Cell(d, size, p, q)
  {
    hide At;
    AtBound(size, i, j);
    AtBound(size, p, q);
    if At(size, i, j) == At(size, p, q) {
      AtInjective(size, i, j, p, q);
    }
  }

  /** The innermost loop: one term more for part of a row. */
  method AddTerms(dst: array<I64>, a: array<I64>, b: array<I64>, size: nat, i: nat, k: nat, j0: nat, j1: nat)
    requires dst != a && dst != b && Square(dst[..], size) && Square(a[..], size) && Square(b[..], size)
    requires i < size && k < size && j0 <= j1 <= size
    requires Filled(dst[..], a[..], b[..], size, i, i + 1, j0, j1, k)
    modifies dst
    ensures Filled(dst[..], a[..], b[..], size, i, i + 1, j0, j1, k + 1)
    ensures SameOutside(dst[..], old(dst[..]), size, i, i + 1, j0, j1)
  {
    hide At, Term, W64;
    ghost var before, A, B := dst[..], a[..], b[..];
    AtBound(size, i, k);
    var valA := a[At(size, i, k)];
    if valA == 0 {
      SkipZero(before, A, B, size, i, k, j0, j1);
      return;
    }
    for j := j0 to j1
      invariant Filled(dst[..], A, B, size, i, i + 1, j0, j, k + 1)
      invariant Filled(dst[..], A, B, size, i, i + 1, j, j1, k)
      invariant SameOutside(dst[..], before, size, i, i + 1, j0, j1)
      invariant a[..] == A && b[..] == B
    {
      AtBound(size, k, j);
      AtBound(size, i, j);
      ghost var was := dst[..];
      var v := W64(dst[At(size, i, j)] + Term(valA, b[At(size, k, j)]));
      dst[At(size, i, j)] := v;
      assert dst[..] == was[At(size, i, j) := v];
      OneMore(was, dst[..], before, A, B, size, i, k, j0, j, j1, v);
    }
  }

  lemma SkipZero(d: Cells, a: Cells, b: Cells, size: nat, i: nat, k: nat, j0: nat, j1: nat)
    requires Square(d, size) && Square(a, size) && Square(b, size) && i < size && k < size && j0 <= j1 <= size
    requires Cell(a, size, i, k) == 0 && Filled(d, a, b, size, i, i + 1, j0, j1, k)
    ensures Filled(d, a, b, size, i, i + 1, j0, j1, k + 1)
  {
    hide At, Term, W64;
    forall p: nat, q: nat | i <= p < i + 1 && j0 <= q < j1
      ensures Cell(d, size, p, q) == Sum(a, b, size, p, q, k + 1)
    {
      TermZero(Cell(b, size, k, q));
      W64Same(Sum(a, b, size, p, q, k));
    }
  }

  lemma OneMore(d: Cells, e: Cells, before: Cells, a: Cells, b: Cells, size: nat, i: nat, k: nat,
                j0: nat, j: nat, j1: nat, v: I64)
    requires Square(d, size) && Square(e, size) && Square(before, size) && Square(a, size) && Square(b, size)
    requires i < size && k < size && j0 <= j < j1 <= size && At(size, i, j) < |d|
    requires e == d[At(size, i, j) := v]
    requires v == W64(Cell(d, size, i, j) + Term(Cell(a, size, i, k), Cell(b, size, k, j)))
    requires Filled(d, a, b, size, i, i + 1, j0, j, k + 1) && Filled(d, a, b, size, i, i + 1, j, j1, k)
    requires SameOutside(d, before, size, i, i + 1, j0, j1)
    ensures Filled(e, a, b, size, i, i + 1, j0, j + 1, k + 1) && Filled(e, a, b, size, i, i + 1, j + 1, j1, k)
    ensures SameOutside(e, before, size, i, i + 1, j0, j1)
  {
    hide At, Term, W64;
    forall p: nat, q: nat | p < size && q < size
      ensures Cell(e, size, p, q) == if p == i && q == j then v else Cell(d, size, p, q)
    {
      SetCell(d, size, i, j, v, p, q);
    }
    assert Cell(d, size, i, j) == Sum(a, b, size, i, j, k);
    assert v == Sum(a, b, size, i, j, k + 1);
  }

  lemma OutsideTwice(d: Cells, e: Cells, f: Cells, size: nat, i0: nat, i1: nat, j0: nat, j1: nat)
    requires Square(d, size) && Square(e, size) && Square(f, size)
    requires SameOutside(d, e, size, i0, i1, j0, j1) && SameOutside(e, f, size, i0, i1, j0, j1)
    ensures SameOutside(d, f, size, i0, i1, j0, j1)
  {
    hide Cell;
  }

  lemma OutsideWider(d: Cells, e: Cells, size: nat, i0: nat, i1: nat, j0: nat, j1: nat,
                     p0: nat, p1: nat, q0: nat, q1: nat)
    requires Square(d, size) && Square(e, size) && SameOutside(d, e, size, i0, i1, j0, j1)
    requires p0 <= i0 && i1 <= p1 && q0 <= j0 && j1 <= q1
    ensures SameOutside(d, e, size, p0, p1, q0, q1)
  {
    hide Cell;
  }

  lemma FilledKept(d: Cells, e: Cells, a: Cells, b: Cells, size: nat, i0: nat, i1: nat, j0: nat, j1: nat, n: nat,
                   p0: nat, p1: nat, q0: nat, q1: nat)
    requires Square(d, size) && Square(e, size) && Square(a, size) && Square(b, size)
    requires i1 <= size && j1 <= size && n <= size
    requires Filled(d, a, b, size, i0, i1, j0, j1, n) && SameOutside(e, d, size, p0, p1, q0, q1)
    requires i1 <= p0 || p1 <= i0 || j1 <= q0 || q1 <= j0
    ensures Filled(e, a, b, size, i0, i1, j0, j1, n)
  {
    hide Cell, Sum;
  }

  lemma FilledJoinColumns(d: Cells, a: Cells, b: Cells, size: nat, i0: nat, i1: nat, j0: nat, j: nat, j1: nat, n: nat)
    requires Square(d, size) && Square(a, size) && Square(b, size) && i1 <= size && j0 <= j <= j1 <= size && n <= size
    ensures Filled(d, a, b, size, i0, i1, j0, j1, n) <==>
            Filled(d, a, b, size, i0, i1, j0, j, n) && Filled(d, a, b, size, i0, i1, j, j1, n)
  {
    hide Cell, Sum;
  }

  lemma FilledJoinRows(d: Cells, a: Cells, b: Cells, size: nat, i0: nat, i: nat, i1: nat, j0: nat, j1: nat, n: nat)
    requires Square(d, size) && Square(a, size) && Square(b, size) && i0 <= i <= i1 <= size && j1 <= size && n <= size
    ensures Filled(d, a, b, size, i0, i1, j0, j1, n) <==>
            Filled(d, a, b, size, i0, i, j0, j1, n) && Filled(d, a, b, size, i, i1, j0, j1, n)
  {
    hide Cell, Sum;
  }

  /** The terms of one block of `k` for part of a row. */
  method AddBlockTerms(dst: array<I64>, a: array<I64>, b: array<I64>, size: nat, i: nat,
                       k0: nat, k1: nat, j0: nat, j1: nat)
    requires dst != a && dst != b && Square(dst[..], size) && Square(a[..], size) && Square(b[..], size)
    requires i < size && k0 <= k1 <= size && j0 <= j1 <= size
    requires Filled(dst[..], a[..], b[..], size, i, i + 1, j0, j1, k0)
    modifies dst
    ensures Filled(dst[..], a[..], b[..], size, i, i + 1, j0, j1, k1)
    ensures SameOutside(dst[..], old(dst[..]), size, i, i + 1, j0, j1)
  {
    hide Filled, SameOutside;
    ghost var before := dst[..];
    OutsideSelf(before, size, i, i + 1, j0, j1);
    for k := k0 to k1
      invariant Filled(dst[..], a[..], b[..], size, i, i + 1, j0, j1, k)
      invariant SameOutside(dst[..], before, size, i, i + 1, j0, j1)
      invariant a[..] == old(a[..]) && b[..] == old(b[..])
    {
      ghost var was := dst[..];
      AddTerms(dst, a, b, size, i, k, j0, j1);
      OutsideTwice(dst[..], was, before, size, i, i + 1, j0, j1);
    }
  }

  lemma OutsideSelf(d: Cells, size: nat, i0: nat, i1: nat, j0: nat, j1: nat)
    requires Square(d, size)
    ensures SameOutside(d, d, size, i0, i1, j0, j1)
  {
  }

  /** One tile: rows `i0..i1` and columns `j0..j1`, terms `k0..k1`. */
  method MulTile(dst: array<I64>, a: array<I64>, b: array<I64>, size: nat, i0: nat, i1: nat,
                 k0: nat, k1: nat, j0: nat, j1: nat)
    requires dst != a && dst != b && Square(dst[..], size) && Square(a[..], size) && Square(b[..], size)
    requires i0 <= i1 <= size && k0 <= k1 <= size && j0 <= j1 <= size
    requires Filled(dst[..], a[..], b[..], size, i0, i1, j0, j1, k0)
    modifies dst
    ensures Filled(dst[..], a[..], b[..], size, i0, i1, j0, j1, k1)
    ensures SameOutside(dst[..], old(dst[..]), size, i0, i1, j0, j1)
  {
    hide Filled, SameOutside;
    ghost var before, A, B := dst[..], a[..], b[..];
    OutsideSelf(before, size, i0, i1, j0, j1);
    FilledNone(before, A, B, size, i0, j0, j1, k1);
    for i := i0 to i1
      invariant Filled(dst[..], A, B, size, i0, i, j0, j1, k1)
      invariant Filled(dst[..], A, B, size, i, i1, j0, j1, k0)
      invariant SameOutside(dst[..], before, size, i0, i1, j0, j1)
      invariant a[..] == A && b[..] == B
    {
      ghost var was := dst[..];
      FilledJoinRows(was, A, B, size, i, i + 1, i1, j0, j1, k0);
      AddBlockTerms(dst, a, b, size, i, k0, k1, j0, j1);
      FilledKept(was, dst[..], A, B, size, i0, i, j0, j1, k1, i, i + 1, j0, j1);
      FilledKept(was, dst[..], A, B, size, i + 1, i1, j0, j1, k0, i, i + 1, j0, j1);
      FilledJoinRows(dst[..], A, B, size, i0, i, i + 1, j0, j1, k1);
      OutsideWider(dst[..], was, size, i, i + 1, j0, j1, i0, i1, j0, j1);
      OutsideTwice(dst[..], was, before, size, i0, i1, j0, j1);
    }
  }

  lemma FilledNone(d: Cells, a: Cells, b: Cells, size: nat, i: nat, j0: nat, j1: nat, n: nat)
    requires Square(d, size) && Square(a, size) && Square(b, size) && i <= size && j1 <= size && n <= size
    ensures Filled(d, a, b, size, i, i, j0, j1, n)
  {
  }

  function BlockEnd(start: nat, size: nat): (e: nat)
    requires start < size
    ensures start < e <= size
  {
    if start + BLOCK > size then size else start + BLOCK
  }

  /** All tiles of a block of rows for one block of terms. */
  method MulStrip(dst: array<I64>, a: array<I64>, b: array<I64>, size: nat, i0: nat, i1: nat, k0: nat, k1: nat)
    requires dst != a && dst != b && Square(dst[..], size) && Square(a[..], size) && Square(b[..], size)
    requires i0 <= i1 <= size && k0 <= k1 <= size
    requires Filled(dst[..], a[..], b[..], size, i0, i1, 0, size, k0)
    modifies dst
    ensures Filled(dst[..], a[..], b[..], size, i0, i1, 0, size, k1)
    ensures SameOutside(dst[..], old(dst[..]), size, i0, i1, 0, size)
  {
    hide Filled, SameOutside;
    ghost var before, A, B := dst[..], a[..], b[..];
    OutsideSelf(before, size, i0, i1, 0, size);
    FilledNoColumns(before, A, B, size, i0, i1, k1);
    var j0 := 0;
    while j0 < size
      invariant 0 <= j0 <= size
      invariant Filled(dst[..], A, B, size, i0, i1, 0, j0, k1)
      invariant Filled(dst[..], A, B, size, i0, i1, j0, size, k0)
      invariant SameOutside(dst[..], before, size, i0, i1, 0, size)
      invariant a[..] == A && b[..] == B
    {
      var j1 := BlockEnd(j0, size);
      ghost var was := dst[..];
      FilledJoinColumns(was, A, B, size, i0, i1, j0, j1, size, k0);
      MulTile(dst, a, b, size, i0, i1, k0, k1, j0, j1);
      FilledKept(was, dst[..], A, B, size, i0, i1, 0, j0, k1, i0, i1, j0, j1);
      FilledKept(was, dst[..], A, B, size, i0, i1, j1, size, k0, i0, i1, j0, j1);
      FilledJoinColumns(dst[..], A, B, size, i0, i1, 0, j0, j1, k1);
      OutsideWider(dst[..], was, size, i0, i1, j0, j1, i0, i1, 0, size);
      OutsideTwice(dst[..], was, before, size, i0, i1, 0, size);
      j0 := j1;
    }
  }

  lemma FilledNoColumns(d: Cells, a: Cells, b: Cells, size: nat, i0: nat, i1: nat, n: nat)
    requires Square(d, size) && Square(a, size) && Square(b, size) && i1 <= size && n <= size
    ensures Filled(d, a, b, size, i0, i1, 0, 0, n)
  {
  }

  /** A block of rows, all blocks of terms in order. */
  method MulRows(dst: array<I64>, a: array<I64>, b: array<I64>, size: nat, i0: nat, i1: nat)
    requires dst != a && dst != b && Square(dst[..], size) && Square(a[..], size) && Square(b[..], size)
    requires i0 <= i1 <= size
    requires Filled(dst[..], a[..], b[..], size, i0, i1, 0, size, 0)
    modifies dst
    ensures Filled(dst[..], a[..], b[..], size, i0, i1, 0, size, size)
    ensures SameOutside(dst[..], old(dst[..]), size, i0, i1, 0, size)
  {
    hide Filled, SameOutside;
    ghost var before := dst[..];
    OutsideSelf(before, size, i0, i1, 0, size);
    var k0 := 0;
    while k0 < size
      invariant 0 <= k0 <= size
      invariant Filled(dst[..], a[..], b[..], size, i0, i1, 0, size, k0)
      invariant SameOutside(dst[..], before, size, i0, i1, 0, size)
      invariant a[..] == old(a[..]) && b[..] == old(b[..])
    {
      var k1 := BlockEnd(k0, size);
      ghost var was := dst[..];
      MulStrip(dst, a, b, size, i0, i1, k0, k1);
      OutsideTwice(dst[..], was, before, size, i0, i1, 0, size);
      k0 := k1;
    }
  }

  /** The blocked product with zero skipping equals the naive one for all sizes and all contents. */
  method MulMatrixBlocked(dst: array<I64>, a: array<I64>, b: array<I64>, size: nat)
    requires dst != a && dst != b && Square(dst[..], size) && Square(a[..], size) && Square(b[..], size)
    modifies dst
    ensures IsProduct(dst[..], a[..], b[..], size)
  {
    hide Filled, SameOutside;
    for i := 0 to size * size
      invariant forall k :: 0 <= k < i ==> dst[k] == 0
      invariant a[..] == old(a[..]) && b[..] == old(b[..])
    {
      dst[i] := 0;
    }
    ghost var A, B := a[..], b[..];
    ZeroFilled(dst[..], A, B, size);
    FilledNone(dst[..], A, B, size, 0, 0, size, size);
    var i0 := 0;
    while i0 < size
      invariant 0 <= i0 <= size
      invariant Filled(dst[..], A, B, size, 0, i0, 0, size, size)
      invariant Filled(dst[..], A, B, size, i0, size, 0, size, 0)
      invariant a[..] == A && b[..] == B
    {
      var i1 := BlockEnd(i0, size);
      ghost var was := dst[..];
      FilledJoinRows(was, A, B, size, i0, i1, size, 0, size, 0);
      MulRows(dst, a, b, size, i0, i1);
      FilledKept(was, dst[..], A, B, size, 0, i0, 0, size, size, i0, i1, 0, size);
      FilledKept(was, dst[..], A, B, size, i1, size, 0, size, 0, i0, i1, 0, size);
      FilledJoinRows(dst[..], A, B, size, 0, i0, i1, 0, size, size);
      i0 := i1;
    }
    AllFilled(dst[..], A, B, size);
  }

  lemma ZeroFilled(d: Cells, a: Cells, b: Cells, size: nat)
    requires Square(d, size) && Square(a, size) && Square(b, size) && forall k :: 0 <= k < |d| ==> d[k] == 0
    ensures Filled(d, a, b, size, 0, size, 0, size, 0)
  {
    hide At;
    forall i: nat, j: nat | i < size && j < size
      ensures Cell(d, size, i, j) == 0
    {
      AtBound(size, i, j);
    }
  }

  lemma AllFilled(d: Cells, a: Cells, b: Cells, size: nat)
    requires Square(d, size) && Square(a, size) && Square(b, size) && Filled(d, a, b, size, 0, size, 0, size, size)
    ensures IsProduct(d, a, b, size)
  {
    hide Cell, Sum;
  }

  /** The naive triple loop. */
  method MulMatrixInto(dst: array<I64>, a: array<I64>, b: array<I64>, size: nat)
    requires dst != a && dst != b && Square(dst[..], size) && Square(a[..], size) && Square(b[..], size)
    modifies dst
    ensures IsProduct(dst[..], a[..], b[..], size)
  {
    hide Filled, Term, W64, At;
    ghost var A, B := a[..], b[..];
    FilledNone(dst[..], A, B, size, 0, 0, size, size);
    for i := 0 to size
      invariant Filled(dst[..], A, B, size, 0, i, 0, size, size)
      invariant a[..] == A && b[..] == B
    {
      FilledNoColumns(dst[..], A, B, size, i, i + 1, size);
      for j := 0 to size
        invariant Filled(dst[..], A, B, size, 0, i, 0, size, size)
        invariant Filled(dst[..], A, B, size, i, i + 1, 0, j, size)
        invariant a[..] == A && b[..] == B
      {
        var sum := NaiveCell(a, b, size, i, j);
        AtBound(size, i, j);
        ghost var was := dst[..];
        dst[At(size, i, j)] := sum;
        assert dst[..] == was[At(size, i, j) := sum];
        CellDone(was, dst[..], A, B, size, i, j, sum);
      }
      FilledJoinRows(dst[..], A, B, size, 0, i, i + 1, 0, size, size);
    }
    AllFilled(dst[..], A, B, size);
  }

  method NaiveCell(a: array<I64>, b: array<I64>, size: nat, i: nat, j: nat) returns (sum: I64)
    requires Square(a[..], size) && Square(b[..], size) && i < size && j < size
    ensures sum == Sum(a[..], b[..], size, i, j, size)
  {
    hide At, Term, W64;
    sum := 0;
    for k := 0 to size
      invariant sum == Sum(a[..], b[..], size, i, j, k)
    {
      AtBound(size, i, k);
      AtBound(size, k, j);
      sum := W64(sum + Term(a[At(size, i, k)], b[At(size, k, j)]));
    }
  }

  lemma CellDone(d: Cells, e: Cells, a: Cells, b: Cells, size: nat, i: nat, j: nat, v: I64)
    requires Square(d, size) && Square(e, size) && Square(a, size) && Square(b, size)
    requires i < size && j < size && At(size, i, j) < |d| && e == d[At(size, i, j) := v]
    requires v == Sum(a, b, size, i, j, size)
    requires Filled(d, a, b, size, 0, i, 0, size, size) && Filled(d, a, b, size, i, i + 1, 0, j, size)
    ensures Filled(e, a, b, size, 0, i, 0, size, size) && Filled(e, a, b, size, i, i + 1, 0, j + 1, size)
  {
    hide Sum, Cell;
    forall p: nat, q: nat | p < size && q < size
      ensures Cell(e, size, p, q) == if p == i && q == j then v else Cell(d, size, p, q)
    {
      SetCell(d, size, i, j, v, p, q);
    }
  }

  /** There is one product: the blocked and the naive loop leave the same array contents. */
  lemma ProductUnique(m: Cells, n: Cells, a: Cells, b: Cells, size: nat)
    requires Square(m, size) && Square(n, size) && Square(a, size) && Square(b, size)
    requires IsProduct(m, a, b, size) && IsProduct(n, a, b, size)
    ensures m == n
  {
    hide Sum;
    forall k | 0 <= k < size * size
      ensures m[k] == n[k]
    {
      SplitIndex(size, k);
      assert m[k] == Cell(m, size, k / size, k % size) && n[k] == Cell(n, size, k / size, k % size);
    }
  }

  /** How many rows each worker gets, the last ones possibly fewer or none. */
  function Share(rows: nat, workers: nat): nat
    requires workers > 0
  {
    (rows + workers - 1) / workers
  }

  function WorkerStart(rows: nat, workers: nat, w: nat): nat
    requires workers > 0
  {
    w * Share(rows, workers)
  }

  function WorkerEnd(rows: nat, workers: nat, w: nat): nat
    requires workers > 0
  {
    var e := WorkerStart(rows, workers, w) + Share(rows, workers);
    if e > rows then rows else e
  }

  lemma DivBounds(n: nat, d: nat)
    requires d > 0
    ensures n / d * d <= n < n / d * d + d
  {
  }

  lemma ShareEnough(rows: nat, workers: nat)
    requires 0 < workers <= rows
    ensures Share(rows, workers) > 0 && workers * Share(rows, workers) >= rows
  {
    var n := rows + workers - 1;
    DivBounds(n, workers);
  }

  lemma Slice(r: nat, i: nat, w: nat)
    requires r > 0
    ensures w * r <= i < w * r + r <==> w == i / r
  {
    DivBounds(i, r);
    var v := i / r;
    if v < w {
      MulMonotone(v + 1, w, r);
      assert (v + 1) * r == v * r + r;
    } else if w < v {
      MulMonotone(w + 1, v, r);
      assert (w + 1) * r == w * r + r;
    }
  }

  /** Every row is computed by exactly one worker, and there is one for it. */
  lemma WorkersPartition(rows: nat, workers: nat, i: nat, w: nat)
    requires 0 < workers <= rows && i < rows
    ensures Share(rows, workers) > 0 && i / Share(rows, workers) < workers
    ensures WorkerStart(rows, workers, w) <= i < WorkerEnd(rows, workers, w) <==> w == i / Share(rows, workers)
  {
    hide Share;
    ShareEnough(rows, workers);
    var r := Share(rows, workers);
    Slice(r, i, w);
    EnoughWorkers(r, i, workers, rows);
  }

  lemma EnoughWorkers(r: nat, i: nat, workers: nat, rows: nat)
    requires r > 0 && i < rows <= workers * r
    ensures i / r < workers
  {
    DivBounds(i, r);
    var v := i / r;
    if workers <= v {
      MulMonotone(workers, v, r);
    }
  }
}
