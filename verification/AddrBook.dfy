/**
 The bookkeeping of the address manager: an index of known addresses, buckets of new addresses
 that one address may be in several of, and buckets of tried addresses. An address counts its
 own places in the new buckets.
 */
module AddrBook {

  type Key = string

  const NEW_BUCKETS: nat := 1024
  const TRIED_BUCKETS: nat := 64
  const NEW_BUCKET_SIZE: nat := 64
  const TRIED_BUCKET_SIZE: nat := 256
  const BUCKETS_PER_ADDRESS: nat := 8

  datatype Known = Known(timestamp: int, services: set<nat>, source: Key, attempts: nat, tried: bool, refs: int)

  datatype Book = Book(
    index: map<Key, Known>,
    untried: seq<set<Key>>,
    tried: seq<seq<Key>>,
    nNew: int,
    nTried: int)

  // ----- Counting places -----

  /** In how many buckets a key is. */
  function Holding(bs: seq<set<Key>>, k: Key): nat
    decreases |bs|
  {
    if bs == [] then 0 else (if k in bs[0] then 1 else 0) + Holding(bs[1..], k)
  }

  function One(b: bool): nat {
    if b then 1 else 0
  }

  lemma {:induction false} HoldingUpdate(bs: seq<set<Key>>, i: nat, s: set<Key>, k: Key)
    requires i < |bs|
    ensures Holding(bs[i := s], k) == Holding(bs, k) - One(k in bs[i]) + One(k in s)
    decreases |bs|
  {
    if i == 0 {
      assert bs[i := s][1..] == bs[1..];
    } else {
      assert bs[i := s][1..] == bs[1..][i - 1 := s];
      HoldingUpdate(bs[1..], i - 1, s, k);
    }
  }

  lemma {:induction false} HeldSomewhere(bs: seq<set<Key>>, k: Key, i: nat)
    requires i < |bs| && k in bs[i]
    ensures Holding(bs, k) >= 1
    decreases |bs|
  {
    if i > 0 {
      HeldSomewhere(bs[1..], k, i - 1);
    }
  }

  lemma {:induction false} HeldNowhere(bs: seq<set<Key>>, k: Key)
    requires forall i :: 0 <= i < |bs| ==> k !in bs[i]
    ensures Holding(bs, k) == 0
    decreases |bs|
  {
    if bs != [] {
      HeldNowhere(bs[1..], k);
    }
  }

  /** In how many slots of the tried buckets a key is. */
  function Slots(ts: seq<seq<Key>>, k: Key): nat
    decreases |ts|
  {
    if ts == [] then 0 else multiset(ts[0])[k] + Slots(ts[1..], k)
  }

  lemma {:induction false} SlotsUpdate(ts: seq<seq<Key>>, i: nat, t: seq<Key>, k: Key)
    requires i < |ts|
    ensures Slots(ts[i := t], k) == Slots(ts, k) - multiset(ts[i])[k] + multiset(t)[k]
    decreases |ts|
  {
    if i == 0 {
      assert ts[i := t][1..] == ts[1..];
    } else {
      assert ts[i := t][1..] == ts[1..][i - 1 := t];
      SlotsUpdate(ts[1..], i - 1, t, k);
    }
  }

  lemma {:induction false} SlotsAtLeast(ts: seq<seq<Key>>, k: Key, i: nat)
    requires i < |ts|
    ensures Slots(ts, k) >= multiset(ts[i])[k]
    decreases |ts|
  {
    if i > 0 {
      SlotsAtLeast(ts[1..], k, i - 1);
    }
  }

  // ----- The invariant -----

  function NewKeys(index: map<Key, Known>): set<Key> {
    set k | k in index && !index[k].tried
  }

  function TriedKeys(index: map<Key, Known>): set<Key> {
    set k | k in index && index[k].tried
  }

  /** A tried address is in one tried slot and no new bucket; any other is in as many new buckets as it counts. */
  predicate PlacesOk(b: Book, k: Key, least: int)
    requires k in b.index
  {
    var a := b.index[k];
    if a.tried then a.refs == 0 && Holding(b.untried, k) == 0 && Slots(b.tried, k) == 1
    else a.refs == Holding(b.untried, k) && least <= a.refs <= BUCKETS_PER_ADDRESS && Slots(b.tried, k) == 0
  }

  predicate Absent(b: Book, k: Key) {
    Holding(b.untried, k) == 0 && Slots(b.tried, k) == 0
  }

  function Least(k: Key, free: set<Key>): int {
    if k in free then 0 else 1
  }

  /** Every address is placed; those in `free` may not have a place yet. */
  ghost predicate Placed(b: Book, free: set<Key>) {
    && (forall k :: k in b.index ==> PlacesOk(b, k, Least(k, free)))
    && (forall k :: k !in b.index ==> Absent(b, k))
  }

  predicate Counted(b: Book) {
    b.nNew == |NewKeys(b.index)| && b.nTried == |TriedKeys(b.index)|
  }

  predicate Bounded(b: Book) {
    && |b.untried| == NEW_BUCKETS && |b.tried| == TRIED_BUCKETS
    && (forall i :: 0 <= i < |b.untried| ==> |b.untried[i]| <= NEW_BUCKET_SIZE + 1)
    && (forall i :: 0 <= i < |b.tried| ==> |b.tried[i]| <= TRIED_BUCKET_SIZE)
  }

  ghost predicate Sound(b: Book, free: set<Key>) {
    Placed(b, free) && Counted(b) && Bounded(b)
  }

  /** The two kinds of addresses make up the index. */
  lemma CountsAddUp(b: Book, free: set<Key>)
    requires Sound(b, free)
    ensures b.nNew + b.nTried == |b.index|
  {
    hide Placed, Bounded;
    var n, t := NewKeys(b.index), TriedKeys(b.index);
    assert n + t == b.index.Keys && n !! t;
  }

  function EmptyBook(): Book {
    Book(map[], seq(NEW_BUCKETS, _ => {}), seq(TRIED_BUCKETS, _ => []), 0, 0)
  }

  lemma EmptyOk()
    ensures Sound(EmptyBook(), {})
  {
    var b := EmptyBook();
    assert NewKeys(b.index) == {} && TriedKeys(b.index) == {};
    forall k
      ensures Absent(b, k)
    {
      HeldNowhere(b.untried, k);
      NoSlots(b.tried, k);
    }
  }

  lemma {:induction false} NoSlots(ts: seq<seq<Key>>, k: Key)
    requires forall i :: 0 <= i < |ts| ==> ts[i] == []
    ensures Slots(ts, k) == 0
    decreases |ts|
  {
    if ts != [] {
      NoSlots(ts[1..], k);
    }
  }

  // ----- Taking an address out of a new bucket -----

  function Drop(b: Book, i: nat, k: Key): Book
    requires i < |b.untried| && k in b.index
  {
    var a := b.index[k].(refs := b.index[k].refs - 1);
    var untried := b.untried[i := b.untried[i] - {k}];
    if a.refs == 0 then b.(untried := untried, index := b.index - {k}, nNew := b.nNew - 1)
    else b.(untried := untried, index := b.index[k := a])
  }

  /** What changing one new bucket does to the places of a key that the change does not concern. */
  lemma OtherKeyKept(b: Book, c: Book, i: nat, k: Key, other: Key)
    requires i < |b.untried| == |c.untried| && c.untried == b.untried[i := c.untried[i]] && c.tried == b.tried
    requires other != k && (other in c.untried[i] <==> other in b.untried[i])
    ensures Holding(c.untried, other) == Holding(b.untried, other) && Slots(c.tried, other) == Slots(b.tried, other)
  {
    HoldingUpdate(b.untried, i, c.untried[i], other);
  }

  lemma DropPlaced(b: Book, free: set<Key>, i: nat, k: Key)
    requires Placed(b, free) && i < |b.untried| && k in b.index && k in b.untried[i] && k !in free
    ensures Placed(Drop(b, i, k), free)
    ensures !b.index[k].tried
  {
    hide Holding, Slots;
    var c := Drop(b, i, k);
    HeldSomewhere(b.untried, k, i);
    assert PlacesOk(b, k, 1);
    HoldingUpdate(b.untried, i, b.untried[i] - {k}, k);
    forall other
      ensures other in c.index ==> PlacesOk(c, other, Least(other, free))
      ensures other !in c.index ==> Absent(c, other)
    {
      if other != k {
        OtherKeyKept(b, c, i, k, other);
        assert other in b.index ==> PlacesOk(b, other, Least(other, free));
      }
    }
  }

  lemma DropCounted(b: Book, i: nat, k: Key)
    requires Counted(b) && i < |b.untried| && k in b.index && !b.index[k].tried
    ensures Counted(Drop(b, i, k))
  {
    var c := Drop(b, i, k);
    assert TriedKeys(c.index) == TriedKeys(b.index);
    assert NewKeys(c.index) == if k in c.index then NewKeys(b.index) else NewKeys(b.index) - {k};
  }

  lemma DropOk(b: Book, free: set<Key>, i: nat, k: Key)
    requires Sound(b, free) && i < |b.untried| && k in b.index && k in b.untried[i] && k !in free
    ensures Sound(Drop(b, i, k), free)
    ensures !b.index[k].tried
  {
    hide Placed, Counted;
    DropPlaced(b, free, i, k);
    DropCounted(b, i, k);
  }

  // ----- Putting an address into the index and into a new bucket -----

  function Insert(b: Book, k: Key, a: Known): Book {
    b.(index := b.index[k := a.(attempts := 0, tried := false, refs := 0)], nNew := b.nNew + 1)
  }

  lemma InsertPlaced(b: Book, k: Key, a: Known)
    requires Placed(b, {}) && k !in b.index
    ensures Placed(Insert(b, k, a), {k})
  {
    hide Holding, Slots;
    var c := Insert(b, k, a);
    assert Absent(b, k);
    forall other
      ensures other in c.index ==> PlacesOk(c, other, Least(other, {k}))
      ensures other !in c.index ==> Absent(c, other)
    {
      if other != k {
        assert other in b.index ==> PlacesOk(b, other, Least(other, {}));
        assert other !in b.index ==> Absent(b, other);
      }
    }
  }

  lemma InsertOk(b: Book, k: Key, a: Known)
    requires Sound(b, {}) && k !in b.index
    ensures Sound(Insert(b, k, a), {k})
  {
    hide Placed, Bounded;
    var c := Insert(b, k, a);
    InsertPlaced(b, k, a);
    assert NewKeys(c.index) == NewKeys(b.index) + {k} && TriedKeys(c.index) == TriedKeys(b.index);
    InsertBounded(b, k, a);
  }

  lemma InsertBounded(b: Book, k: Key, a: Known)
    requires Bounded(b)
    ensures Bounded(Insert(b, k, a))
  {
  }

  function Add(b: Book, i: nat, k: Key): Book
    requires i < |b.untried| && k in b.index
  {
    b.(untried := b.untried[i := b.untried[i] + {k}],
       index := b.index[k := b.index[k].(refs := b.index[k].refs + 1)])
  }

  lemma AddOk(b: Book, i: nat, k: Key)
    requires Sound(b, {k}) && i < |b.untried| && k in b.index && k !in b.untried[i]
    requires !b.index[k].tried && b.index[k].refs < BUCKETS_PER_ADDRESS && |b.untried[i]| <= NEW_BUCKET_SIZE
    ensures Sound(Add(b, i, k), {})
  {
    hide Holding, Slots, Bounded, Counted;
    var c := Add(b, i, k);
    assert PlacesOk(b, k, 0);
    HoldingUpdate(b.untried, i, b.untried[i] + {k}, k);
    forall other
      ensures other in c.index ==> PlacesOk(c, other, Least(other, {}))
      ensures other !in c.index ==> Absent(c, other)
    {
      if other != k {
        OtherKeyKept(b, c, i, k, other);
        assert other in b.index ==> PlacesOk(b, other, Least(other, {k}));
      }
    }
    AddCounted(b, i, k);
    AddBounded(b, i, k);
  }

  lemma AddCounted(b: Book, i: nat, k: Key)
    requires Counted(b) && i < |b.untried| && k in b.index
    ensures Counted(Add(b, i, k))
  {
    var c := Add(b, i, k);
    assert NewKeys(c.index) == NewKeys(b.index) && TriedKeys(c.index) == TriedKeys(b.index);
  }

  lemma AddBounded(b: Book, i: nat, k: Key)
    requires Bounded(b) && i < |b.untried| && k in b.index && |b.untried[i]| <= NEW_BUCKET_SIZE
    ensures Bounded(Add(b, i, k))
  {
  }

  // ----- Moving an address to a tried bucket -----

  function Without(bs: seq<set<Key>>, k: Key): (cs: seq<set<Key>>)
    ensures |cs| == |bs|
  {
    seq(|bs|, i requires 0 <= i < |bs| => bs[i] - {k})
  }

  lemma {:induction false} HoldingWithout(bs: seq<set<Key>>, k: Key, other: Key)
    ensures Holding(Without(bs, k), other) == if other == k then 0 else Holding(bs, other)
    decreases |bs|
  {
    if bs != [] {
      assert Without(bs, k)[1..] == Without(bs[1..], k);
      HoldingWithout(bs[1..], k, other);
    }
  }

  /** A known address marked as tried, with no places in new buckets. */
  function AsTried(a: Known): Known {
    a.(tried := true, refs := 0)
  }

  function Promote(b: Book, k: Key, t: nat): Book
    requires t < |b.tried| && k in b.index
  {
    b.(untried := Without(b.untried, k), tried := b.tried[t := b.tried[t] + [k]],
       index := b.index[k := AsTried(b.index[k])], nNew := b.nNew - 1, nTried := b.nTried + 1)
  }

  lemma PromotePlaced(b: Book, k: Key, t: nat)
    requires Placed(b, {}) && t < |b.tried| && k in b.index && !b.index[k].tried
    ensures Placed(Promote(b, k, t), {})
  {
    hide Holding, Slots, Without;
    var c := Promote(b, k, t);
    assert PlacesOk(b, k, 1);
    forall other
      ensures other in c.index ==> PlacesOk(c, other, Least(other, {}))
      ensures other !in c.index ==> Absent(c, other)
    {
      HoldingWithout(b.untried, k, other);
      SlotsUpdate(b.tried, t, b.tried[t] + [k], other);
      assert multiset(b.tried[t] + [k])[other] == multiset(b.tried[t])[other] + One(other == k);
      if other != k {
        assert other in b.index ==> PlacesOk(b, other, Least(other, {}));
        assert other !in b.index ==> Absent(b, other);
      }
    }
  }

  lemma PromoteOk(b: Book, k: Key, t: nat)
    requires Sound(b, {}) && t < |b.tried| && k in b.index && !b.index[k].tried && |b.tried[t]| < TRIED_BUCKET_SIZE
    ensures Sound(Promote(b, k, t), {})
  {
    hide Placed;
    var c := Promote(b, k, t);
    PromotePlaced(b, k, t);
    assert NewKeys(c.index) == NewKeys(b.index) - {k} && TriedKeys(c.index) == TriedKeys(b.index) + {k};
    WithoutBounded(b.untried, k);
  }

  lemma WithoutBounded(bs: seq<set<Key>>, k: Key)
    requires forall i :: 0 <= i < |bs| ==> |bs[i]| <= NEW_BUCKET_SIZE + 1
    ensures forall i :: 0 <= i < |bs| ==> |Without(bs, k)[i]| <= NEW_BUCKET_SIZE + 1
  {
    forall i | 0 <= i < |bs|
      ensures |Without(bs, k)[i]| <= NEW_BUCKET_SIZE + 1
    {
      SmallerWithout(bs[i], k);
    }
  }

  lemma SmallerWithout(s: set<Key>, k: Key)
    ensures |s - {k}| <= |s| && (k in s ==> |s - {k}| == |s| - 1)
  {
    if k !in s {
      assert s - {k} == s;
    }
  }

  /** `k` takes the place of the evicted address, which goes back into the new bucket `n`. */
  function Swap(b: Book, k: Key, t: nat, p: nat, n: nat): Book
    requires t < |b.tried| && p < |b.tried[t]| && n < |b.untried| && k in b.index && b.tried[t][p] in b.index
  {
    var out := b.tried[t][p];
    var cleared := Without(b.untried, k);
    b.(untried := cleared[n := cleared[n] + {out}],
       tried := b.tried[t := b.tried[t][p := k]],
       index := b.index[k := AsTried(b.index[k])][out := b.index[out].(tried := false, refs := b.index[out].refs + 1)])
  }

  lemma TriedSlot(b: Book, t: nat, p: nat)
    requires Placed(b, {}) && t < |b.tried| && p < |b.tried[t]|
    ensures b.tried[t][p] in b.index && b.index[b.tried[t][p]].tried && multiset(b.tried[t])[b.tried[t][p]] == 1
  {
    hide Holding, Slots;
    var out := b.tried[t][p];
    SlotsAtLeast(b.tried, out, t);
    assert out in multiset(b.tried[t]);
    assert out in b.index ==> PlacesOk(b, out, Least(out, {}));
    assert out !in b.index ==> Absent(b, out);
  }

  lemma ReplaceCount(s: seq<Key>, p: nat, k: Key, other: Key)
    requires p < |s|
    ensures multiset(s[p := k])[other] == multiset(s)[other] - One(other == s[p]) + One(other == k)
  {
    assert s == s[..p] + [s[p]] + s[p + 1..];
    assert s[p := k] == s[..p] + [k] + s[p + 1..];
  }

  lemma SwapPlaces(b: Book, k: Key, t: nat, p: nat, n: nat, other: Key)
    requires Placed(b, {}) && t < |b.tried| && p < |b.tried[t]| && n < |b.untried|
    requires k in b.index && !b.index[k].tried && b.tried[t][p] in b.index
    ensures var out, c := b.tried[t][p], Swap(b, k, t, p, n);
      && k != out
      && Holding(c.untried, other) == (if other == k then 0 else Holding(b.untried, other)) + One(other == out)
      && Slots(c.tried, other) == Slots(b.tried, other) - One(other == out) + One(other == k)
  {
    hide Holding, Slots, Without;
    var out := b.tried[t][p];
    TriedSlot(b, t, p);
    var cleared := Without(b.untried, k);
    HoldingWithout(b.untried, k, other);
    HoldingUpdate(cleared, n, cleared[n] + {out}, other);
    assert PlacesOk(b, out, Least(out, {}));
    HoldingWithout(b.untried, k, out);
    if out in cleared[n] {
      HeldSomewhere(cleared, out, n);
    }
    SlotsUpdate(b.tried, t, b.tried[t][p := k], other);
    ReplaceCount(b.tried[t], p, k, other);
  }

  lemma SwapPlaced(b: Book, k: Key, t: nat, p: nat, n: nat)
    requires Placed(b, {}) && t < |b.tried| && p < |b.tried[t]| && n < |b.untried|
    requires k in b.index && !b.index[k].tried && b.tried[t][p] in b.index
    ensures Placed(Swap(b, k, t, p, n), {})
  {
    hide Holding, Slots, Without;
    var c, out := Swap(b, k, t, p, n), b.tried[t][p];
    TriedSlot(b, t, p);
    assert PlacesOk(b, k, 1) && PlacesOk(b, out, Least(out, {}));
    forall other
      ensures other in c.index ==> PlacesOk(c, other, Least(other, {}))
      ensures other !in c.index ==> Absent(c, other)
    {
      SwapPlaces(b, k, t, p, n, other);
      if other != k && other != out {
        assert other in b.index ==> PlacesOk(b, other, Least(other, {}));
        assert other !in b.index ==> Absent(b, other);
      }
    }
  }

  lemma SwapOk(b: Book, k: Key, t: nat, p: nat, n: nat)
    requires Sound(b, {}) && t < |b.tried| && p < |b.tried[t]| && n < |b.untried|
    requires k in b.index && !b.index[k].tried && b.tried[t][p] in b.index
    requires k in b.untried[n] || |b.untried[n]| <= NEW_BUCKET_SIZE
    ensures Sound(Swap(b, k, t, p, n), {})
  {
    hide Placed, Counted, Bounded;
    SwapPlaced(b, k, t, p, n);
    TriedSlot(b, t, p);
    SwapCounted(b, k, t, p, n);
    SwapBounded(b, k, t, p, n);
  }

  lemma SwapCounted(b: Book, k: Key, t: nat, p: nat, n: nat)
    requires Counted(b) && t < |b.tried| && p < |b.tried[t]| && n < |b.untried|
    requires k in b.index && !b.index[k].tried && b.tried[t][p] in b.index && b.index[b.tried[t][p]].tried
    ensures Counted(Swap(b, k, t, p, n))
  {
    var c, out := Swap(b, k, t, p, n), b.tried[t][p];
    assert NewKeys(c.index) == (NewKeys(b.index) - {k}) + {out};
    assert TriedKeys(c.index) == (TriedKeys(b.index) - {out}) + {k};
  }

  lemma SwapBounded(b: Book, k: Key, t: nat, p: nat, n: nat)
    requires Bounded(b) && t < |b.tried| && p < |b.tried[t]| && n < |b.untried|
    requires k in b.index && b.tried[t][p] in b.index
    requires k in b.untried[n] || |b.untried[n]| <= NEW_BUCKET_SIZE
    ensures Bounded(Swap(b, k, t, p, n))
  {
    hide Without;
    WithoutBounded(b.untried, k);
    SmallerWithout(b.untried[n], k);
    WithoutAt(b.untried, k, n);
  }

  lemma WithoutAt(bs: seq<set<Key>>, k: Key, n: nat)
    requires n < |bs|
    ensures Without(bs, k)[n] == bs[n] - {k}
  {
  }

  // ----- Changing what is known about an address -----

  /** Replaces an index entry by one with the same places. */
  function Touch(b: Book, k: Key, a: Known): Book {
    b.(index := b.index[k := a])
  }

  lemma TouchOk(b: Book, free: set<Key>, k: Key, a: Known)
    requires Sound(b, free) && k in b.index && a.tried == b.index[k].tried && a.refs == b.index[k].refs
    ensures Sound(Touch(b, k, a), free)
  {
    hide Holding, Slots;
    var c := Touch(b, k, a);
    assert NewKeys(c.index) == NewKeys(b.index) && TriedKeys(c.index) == TriedKeys(b.index);
    forall other
      ensures other in c.index ==> PlacesOk(c, other, Least(other, free))
      ensures other !in c.index ==> Absent(c, other)
    {
      assert other in b.index ==> PlacesOk(b, other, Least(other, free));
      assert other !in b.index ==> Absent(b, other);
    }
  }

  lemma {:induction false} HoldingPrefix(bs: seq<set<Key>>, i: nat, k: Key)
    requires i < |bs|
    ensures Holding(bs[..i + 1], k) == Holding(bs[..i], k) + One(k in bs[i])
    decreases i
  {
    if i == 0 {
      assert bs[..1][1..] == [];
    } else {
      assert bs[..i + 1][1..] == bs[1..][..i] && bs[..i][1..] == bs[1..][..i - 1];
      HoldingPrefix(bs[1..], i - 1, k);
    }
  }

  lemma HoldingNone(k: Key)
    ensures Holding([], k) == 0
  {
  }

  /** An address that is not tried is in some new bucket, so its count is positive. */
  lemma UntriedHeld(b: Book, k: Key)
    requires Sound(b, {}) && k in b.index && !b.index[k].tried
    ensures 1 <= b.index[k].refs <= BUCKETS_PER_ADDRESS && b.index[k].refs == Holding(b.untried, k)
  {
    hide Holding, Slots;
    assert PlacesOk(b, k, Least(k, {}));
  }

  /** The sizes: 1024 new buckets of at most 65 addresses, 64 tried ones of at most 256, at most eight places each. */
  lemma Limits(b: Book)
    requires Sound(b, {})
    ensures |b.untried| == 1024 && |b.tried| == 64
    ensures forall i :: 0 <= i < |b.untried| ==> |b.untried[i]| <= 65
    ensures forall i :: 0 <= i < |b.tried| ==> |b.tried[i]| <= 256
    ensures forall k :: k in b.index && !b.index[k].tried ==> 1 <= b.index[k].refs <= 8
  {
    hide Placed, Counted;
    forall k | k in b.index && !b.index[k].tried
      ensures 1 <= b.index[k].refs <= 8
    {
      UntriedHeld(b, k);
    }
  }

  /** What is in a bucket is in the index, and belongs there. */
  lemma HeldIsKnown(b: Book, free: set<Key>, i: nat, k: Key)
    requires Sound(b, free) && i < |b.untried| && k in b.untried[i]
    ensures k in b.index && !b.index[k].tried
  {
    hide Holding, Slots;
    HeldSomewhere(b.untried, k, i);
    assert k in b.index ==> PlacesOk(b, k, Least(k, free));
    assert k !in b.index ==> Absent(b, k);
  }
}
