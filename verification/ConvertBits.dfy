/**
 Regrouping of bits: bytes that carry `from` bits each become bytes that carry `to` bits each.
 The meaning of a byte string is the sequence of bits it carries, the highest first.
 */
module ConvertBits {
  import opened Wrappers

  type Bits = seq<bool>

  datatype Error = InvalidBitGroups | InvalidIncompleteGroup

  function Shl(b: bv8, k: nat): bv8
    requires k <= 8
  {
    b << k
  }

  predicate High(b: bv8) {
    b & 0x80 == 0x80
  }

  /** The highest bits of a byte, the highest first. */
  function TopBits(b: bv8, n: nat): (bits: Bits)
    ensures |bits| == n
    decreases n
  {
    if n == 0 then [] else [High(b)] + TopBits(Shl(b, 1), n - 1)
  }

  /** The lowest `n` bits of a byte, the highest of them first. */
  function Carried(b: bv8, n: nat): (bits: Bits)
    requires n <= 8
    ensures |bits| == n
  {
    TopBits(Shl(b, 8 - n), n)
  }

  /** The bits carried by a byte string. */
  function AllCarried(data: seq<bv8>, n: nat): (bits: Bits)
    requires n <= 8
    decreases |data|
  {
    if data == [] then [] else Carried(data[0], n) + AllCarried(data[1..], n)
  }

  function Push(x: bv8, bit: bool): bv8 {
    (x << 1) | (if bit then 1 else 0)
  }

  /** A byte with further bits shifted in from below. */
  function PushAll(x: bv8, bits: Bits): bv8
    decreases |bits|
  {
    if bits == [] then x else PushAll(Push(x, bits[0]), bits[1..])
  }

  /** The complete groups of `n` bits. */
  function Group(bits: Bits, n: nat): (vs: seq<bv8>)
    requires n > 0
    decreases |bits|
  {
    if |bits| < n then [] else [PushAll(0, bits[..n])] + Group(bits[n..], n)
  }

  /** The bits left over after the complete groups. */
  function Rest(bits: Bits, n: nat): (rest: Bits)
    requires n > 0
    ensures |rest| < n
    decreases |bits|
  {
    if |bits| < n then bits else Rest(bits[n..], n)
  }

  function Falses(n: nat): (bits: Bits)
    ensures |bits| == n
  {
    seq(n, _ => false)
  }

  /** How many zero bits complete the last group. */
  function Padding(bits: Bits, n: nat): (z: nat)
    requires n > 0
    ensures z < n
  {
    var rest := Rest(bits, n);
    if rest == [] then 0 else n - |rest|
  }

  function Convert(data: seq<bv8>, from: nat, to: nat, pad: bool): Result<seq<bv8>, Error> {
    if from < 1 || from > 8 || to < 1 || to > 8 then Err(InvalidBitGroups)
    else
      var bits := AllCarried(data, from);
      var rest := Rest(bits, to);
      if pad then Ok(Group(bits + Falses(Padding(bits, to)), to))
      else if |rest| > 4 || true in rest then Err(InvalidIncompleteGroup)
      else Ok(Group(bits, to))
  }

  // ----- Shifting several bits at once is shifting them one by one -----

  /** What the inner loop computes: `k` bits move from the top of one byte to the bottom of another. */
  function Move(x: bv8, b: bv8, k: nat): bv8
    requires k <= 8
  {
    (x << k) | (b >> (8 - k))
  }

  lemma MoveOne(x: bv8, b: bv8, k: nat)
    requires 1 <= k <= 8
    ensures Move(x, b, k) == Move(Push(x, High(b)), Shl(b, 1), k - 1)
  {
    if k == 1 {
      assert 8 - k == 7;
    } else if k == 2 {
      assert 8 - k == 6;
    } else if k == 3 {
      assert 8 - k == 5;
    } else if k == 4 {
      assert 8 - k == 4;
    } else if k == 5 {
      assert 8 - k == 3;
    } else if k == 6 {
      assert 8 - k == 2;
    } else if k == 7 {
      assert 8 - k == 1;
    } else {
      assert 8 - k == 0;
    }
  }

  lemma MoveNone(x: bv8, b: bv8)
    ensures Move(x, b, 0) == x
  {
    assert x << 0 == x;
    assert b >> 8 == 0;
  }

  lemma {:induction false} MoveIsPush(x: bv8, b: bv8, k: nat)
    requires k <= 8
    ensures Move(x, b, k) == PushAll(x, TopBits(b, k))
    decreases k
  {
    hide Move, Push, Shl, High;
    if k == 0 {
      MoveNone(x, b);
    } else {
      MoveOne(x, b, k);
      var bits := TopBits(b, k);
      assert bits[1..] == TopBits(Shl(b, 1), k - 1);
      MoveIsPush(Push(x, bits[0]), Shl(b, 1), k - 1);
    }
  }

  lemma ShlOne(b: bv8, k: nat)
    requires 1 <= k <= 8
    ensures Shl(b, k) == Shl(Shl(b, 1), k - 1)
  {
    if k == 1 {
      assert k - 1 == 0;
    } else if k == 2 {
      assert k - 1 == 1;
    } else if k == 3 {
      assert k - 1 == 2;
    } else if k == 4 {
      assert k - 1 == 3;
    } else if k == 5 {
      assert k - 1 == 4;
    } else if k == 6 {
      assert k - 1 == 5;
    } else if k == 7 {
      assert k - 1 == 6;
    } else {
      assert k - 1 == 7;
    }
  }

  lemma ShlNone(b: bv8)
    ensures Shl(b, 0) == b
  {
  }

  lemma {:induction false} TopBitsSplit(b: bv8, k: nat, n: nat)
    requires k <= n <= 8
    ensures TopBits(b, n) == TopBits(b, k) + TopBits(Shl(b, k), n - k)
    decreases k
  {
    hide Shl, High;
    if k == 0 {
      ShlNone(b);
    } else {
      ShlOne(b, k);
      TopBitsSplit(Shl(b, 1), k - 1, n - 1);
    }
  }

  // ----- A byte keeps the bits pushed into it -----

  lemma {:induction false} PushAllSplit(x: bv8, bits: Bits, more: Bits)
    ensures PushAll(x, bits + more) == PushAll(PushAll(x, bits), more)
    decreases |bits|
  {
    hide Push;
    if bits == [] {
      assert bits + more == more;
    } else {
      assert (bits + more)[1..] == bits[1..] + more;
      PushAllSplit(Push(x, bits[0]), bits[1..], more);
    }
  }

  lemma PushedBit(x: bv8, bit: bool)
    ensures High(Shl(Push(x, bit), 7)) == bit
  {
  }

  lemma ShlPush(x: bv8, bit: bool, k: nat)
    requires k <= 6
    ensures High(Shl(Push(x, bit), k)) == High(Shl(x, k + 1))
  {
    if k == 0 {
    } else if k == 1 {
      assert k + 1 == 2;
    } else if k == 2 {
      assert k + 1 == 3;
    } else if k == 3 {
      assert k + 1 == 4;
    } else if k == 4 {
      assert k + 1 == 5;
    } else if k == 5 {
      assert k + 1 == 6;
    } else {
      assert k + 1 == 7;
    }
  }

  lemma {:induction false} ShlShl(b: bv8, i: nat, j: nat)
    requires i + j <= 8
    ensures Shl(Shl(b, i), j) == Shl(b, i + j)
    decreases i
  {
    hide Shl;
    if i == 0 {
      ShlNone(b);
    } else {
      ShlOne(b, i);
      ShlOne(b, i + j);
      ShlShl(Shl(b, 1), i - 1, j);
    }
  }

  lemma {:induction false} TopBitsAt(b: bv8, n: nat, i: nat)
    requires i < n <= 8
    ensures TopBits(b, n)[i] == High(Shl(b, i))
    decreases i
  {
    hide Shl, High;
    if i == 0 {
      ShlNone(b);
    } else {
      TopBitsAt(Shl(b, 1), n - 1, i - 1);
      ShlOne(b, i);
    }
  }

  lemma CarriedAt(b: bv8, n: nat, i: nat)
    requires i < n <= 8
    ensures Carried(b, n)[i] == High(Shl(b, 8 - n + i))
  {
    hide Shl, High;
    TopBitsAt(Shl(b, 8 - n), n, i);
    ShlShl(b, 8 - n, i);
  }

  lemma CarriedPush(x: bv8, bit: bool, n: nat)
    requires n < 8
    ensures Carried(Push(x, bit), n + 1) == Carried(x, n) + [bit]
  {
    hide Shl, High, Push, Carried;
    forall i | 0 <= i <= n
      ensures Carried(Push(x, bit), n + 1)[i] == (Carried(x, n) + [bit])[i]
    {
      CarriedAt(Push(x, bit), n + 1, i);
      if i < n {
        CarriedAt(x, n, i);
        ShlPush(x, bit, 7 - n + i);
      } else {
        PushedBit(x, bit);
      }
    }
  }

  lemma {:induction false} CarriedPushAll(x: bv8, bits: Bits)
    requires |bits| <= 8
    ensures Carried(PushAll(x, bits), |bits|) == bits
    decreases |bits|
  {
    hide Shl, High, Push, Carried, PushAll;
    if bits != [] {
      var init, last := bits[..|bits| - 1], bits[|bits| - 1];
      assert bits == init + [last];
      PushAllSplit(x, init, [last]);
      PushAllOne(PushAll(x, init), last);
      CarriedPushAll(x, init);
      CarriedPush(PushAll(x, init), last, |init|);
    }
  }

  lemma PushAllOne(x: bv8, bit: bool)
    ensures PushAll(x, [bit]) == Push(x, bit)
  {
    hide Push;
    assert [bit][1..] == [];
    assert PushAll(x, [bit]) == PushAll(Push(x, bit), []);
  }

  /** The byte fits in `n` bits. */
  predicate Fits(b: bv8, n: nat)
    requires n <= 8
  {
    PushAll(0, Carried(b, n)) == b
  }

  predicate AllFit(data: seq<bv8>, n: nat)
    requires n <= 8
  {
    forall i :: 0 <= i < |data| ==> Fits(data[i], n)
  }

  lemma EveryByteFits(b: bv8)
    ensures Fits(b, 8)
  {
    hide Shl;
    ShlNone(b);
    MoveIsPush(0, b, 8);
    assert b >> 0 == b;
  }

  // ----- Grouping and what the groups carry -----

  lemma {:induction false} CarriedGroup(bits: Bits, n: nat)
    requires 1 <= n <= 8
    ensures AllCarried(Group(bits, n), n) + Rest(bits, n) == bits
    decreases |bits|
  {
    hide Carried, PushAll, AllCarried;
    if |bits| < n {
      AllCarriedNone(n);
      assert [] + bits == bits;
    } else {
      var h, t := bits[..n], bits[n..];
      var a, r := AllCarried(Group(t, n), n), Rest(t, n);
      CarriedGroup(t, n);
      CarriedPushAll(0, h);
      AllCarriedCons(PushAll(0, h), Group(t, n), n);
      Regrouped(h, a, r, bits, n);
    }
  }

  lemma Regrouped(h: Bits, a: Bits, r: Bits, bits: Bits, n: nat)
    requires n <= |bits| && h == bits[..n] && a + r == bits[n..]
    ensures (h + a) + r == bits
  {
    assert (h + a) + r == h + (a + r);
    assert bits == bits[..n] + bits[n..];
  }

  lemma AllCarriedNone(n: nat)
    requires n <= 8
    ensures AllCarried([], n) == []
  {
  }

  lemma AllCarriedCons(b: bv8, data: seq<bv8>, n: nat)
    requires n <= 8
    ensures AllCarried([b] + data, n) == Carried(b, n) + AllCarried(data, n)
  {
    hide Carried;
    assert ([b] + data)[1..] == data;
  }

  lemma {:induction false} GroupCarried(data: seq<bv8>, n: nat, extra: Bits)
    requires 1 <= n <= 8 && AllFit(data, n)
    ensures Group(AllCarried(data, n) + extra, n) == data + Group(extra, n)
    ensures Rest(AllCarried(data, n) + extra, n) == Rest(extra, n)
    decreases |data|
  {
    hide Carried, PushAll;
    var bits := AllCarried(data, n) + extra;
    if data == [] {
      assert bits == extra;
      assert data + Group(extra, n) == Group(extra, n);
    } else {
      var head := Carried(data[0], n);
      assert bits == head + (AllCarried(data[1..], n) + extra);
      assert bits[..n] == head && bits[n..] == AllCarried(data[1..], n) + extra;
      assert Fits(data[0], n);
      GroupCarried(data[1..], n, extra);
      assert data + Group(extra, n) == [data[0]] + (data[1..] + Group(extra, n));
    }
  }

  lemma {:induction false} GroupAppend(bits: Bits, more: Bits, n: nat)
    requires 1 <= n && |Rest(bits, n)| + |more| <= n
    ensures |Rest(bits, n)| + |more| < n ==>
              Group(bits + more, n) == Group(bits, n) && Rest(bits + more, n) == Rest(bits, n) + more
    ensures |Rest(bits, n)| + |more| == n ==>
              Group(bits + more, n) == Group(bits, n) + [PushAll(0, Rest(bits, n) + more)] && Rest(bits + more, n) == []
    decreases |bits|
  {
    hide PushAll;
    if |bits| >= n {
      assert (bits + more)[..n] == bits[..n];
      assert (bits + more)[n..] == bits[n..] + more;
      GroupAppend(bits[n..], more, n);
    } else if |bits| + |more| == n {
      var all := bits + more;
      assert all[..n] == all && all[n..] == [];
      assert Group(all, n) == [PushAll(0, all)] + Group([], n);
    }
  }

  lemma {:induction false} GroupsFit(bits: Bits, n: nat)
    requires 1 <= n <= 8
    ensures AllFit(Group(bits, n), n)
    decreases |bits|
  {
    hide Carried, PushAll;
    if |bits| >= n {
      CarriedPushAll(0, bits[..n]);
      GroupsFit(bits[n..], n);
    }
  }

  lemma PaddedComplete(bits: Bits, n: nat)
    requires 1 <= n
    ensures Rest(bits + Falses(Padding(bits, n)), n) == []
  {
    hide Group;
    GroupAppend(bits, Falses(Padding(bits, n)), n);
    if Rest(bits, n) == [] {
      assert bits + Falses(0) == bits;
    }
  }

  lemma NoneTrue(bits: Bits)
    requires true !in bits
    ensures bits == Falses(|bits|)
  {
    forall i | 0 <= i < |bits|
      ensures !bits[i]
    {
      assert bits[i] in bits;
    }
  }

  /** With padding, the result carries the same bits and then zeros up to the next whole group. */
  lemma PaddedCarriesSame(data: seq<bv8>, from: nat, to: nat)
    requires 1 <= from <= 8 && 1 <= to <= 8
    ensures Convert(data, from, to, true).Ok?
    ensures var out, bits := Convert(data, from, to, true).value, AllCarried(data, from);
      AllFit(out, to) && AllCarried(out, to) == bits + Falses(Padding(bits, to))
  {
    hide AllCarried, Group, Rest, Padding;
    var bits := AllCarried(data, from);
    var padded := bits + Falses(Padding(bits, to));
    PaddedComplete(bits, to);
    CarriedGroup(padded, to);
    GroupsFit(padded, to);
  }

  /** Without padding, only an incomplete group of at most four zero bits is dropped. */
  lemma UnpaddedCarriesSame(data: seq<bv8>, from: nat, to: nat)
    requires Convert(data, from, to, false).Ok?
    ensures 1 <= from <= 8 && 1 <= to <= 8
    ensures var out := Convert(data, from, to, false).value;
      AllFit(out, to)
      && exists z :: 0 <= z <= 4 && z < to && AllCarried(data, from) == AllCarried(out, to) + Falses(z)
  {
    hide AllCarried, Group, Rest;
    var bits := AllCarried(data, from);
    CarriedGroup(bits, to);
    GroupsFit(bits, to);
    var z := |Rest(bits, to)|;
    NoneTrue(Rest(bits, to));
    assert z <= 4 && z < to && bits == AllCarried(Group(bits, to), to) + Falses(z);
  }

  /**
   Regrouping with padding and back without is the identity exactly when the padding is at most
   four bits and less than one group of the original size.
   */
  lemma RoundTrip(data: seq<bv8>, from: nat, to: nat)
    requires 1 <= from <= 8 && 1 <= to <= 8 && AllFit(data, from)
    ensures Convert(data, from, to, true).Ok?
    ensures Convert(Convert(data, from, to, true).value, to, from, false) == Ok(data)
       <==> Padding(AllCarried(data, from), to) <= 4 && Padding(AllCarried(data, from), to) < from
  {
    hide AllCarried, Group, Rest, Padding;
    var bits := AllCarried(data, from);
    var z := Padding(bits, to);
    PaddedCarriesSame(data, from, to);
    GroupCarried(data, from, Falses(z));
    RestOfFalses(z, from);
    var extra := Group(Falses(z), from);
    assert data + extra == data <==> extra == [] by {
      assert |data + extra| == |data| + |extra|;
      assert data + [] == data;
    }
  }

  lemma RestOfFalses(z: nat, n: nat)
    requires n > 0
    ensures true !in Rest(Falses(z), n)
    ensures z < n <==> Group(Falses(z), n) == []
    ensures z < n ==> |Rest(Falses(z), n)| == z
    decreases z
  {
    if z >= n {
      assert Falses(z)[n..] == Falses(z - n);
      RestOfFalses(z - n, n);
    }
  }

  lemma {:induction false} RestUnique(bits: Bits, z: nat, n: nat)
    requires n > 0 && z < n && Rest(bits + Falses(z), n) == []
    ensures Padding(bits, n) == z
    decreases |bits|
  {
    if |bits| >= n {
      assert (bits + Falses(z))[n..] == bits[n..] + Falses(z);
      RestUnique(bits[n..], z, n);
    }
  }

  /** Regrouping without padding loses nothing that padding would not restore. */
  lemma RoundTripBack(data: seq<bv8>, from: nat, to: nat)
    requires 1 <= from <= 8 && 1 <= to <= 8 && AllFit(data, from)
    requires Convert(data, from, to, false).Ok? && |Rest(AllCarried(data, from), to)| < from
    ensures Convert(Convert(data, from, to, false).value, to, from, true) == Ok(data)
  {
    hide AllCarried, Group, Rest, Padding;
    var bits := AllCarried(data, from);
    var out := Convert(data, from, to, false).value;
    var z := |Rest(bits, to)|;
    CarriedGroup(bits, to);
    NoneTrue(Rest(bits, to));
    assert bits == AllCarried(out, to) + Falses(z);
    GroupCarried(data, from, []);
    assert bits + [] == bits;
    NothingLeft(from);
    assert data + [] == data;
    RestUnique(AllCarried(out, to), z, from);
  }

  lemma NothingLeft(n: nat)
    requires n > 0
    ensures Rest([], n) == [] && Group([], n) == []
  {
  }

  lemma {:induction false} AllCarriedLength(data: seq<bv8>, n: nat)
    requires n <= 8
    ensures |AllCarried(data, n)| == n * |data|
    decreases |data|
  {
    hide Carried;
    if data != [] {
      AllCarriedLength(data[1..], n);
      assert n * |data| == n + n * |data[1..]|;
    }
  }

  /** Bytes to five-bit groups and back is the identity on every byte string. */
  lemma BytesRoundTrip(data: seq<bv8>)
    ensures Convert(data, 8, 5, true).Ok?
    ensures Convert(Convert(data, 8, 5, true).value, 5, 8, false) == Ok(data)
  {
    hide Convert, AllCarried, Padding, Fits;
    forall i | 0 <= i < |data|
      ensures Fits(data[i], 8)
    {
      EveryByteFits(data[i]);
    }
    RoundTrip(data, 8, 5);
  }

  // ----- The loops -----

  /** The loop state stands for the bits consumed so far. */
  predicate Represents(seen: Bits, to: nat, regrouped: seq<bv8>, nextByte: bv8, filled: nat)
    requires to > 0
  {
    && regrouped == Group(seen, to)
    && nextByte == PushAll(0, Rest(seen, to))
    && filled == |Rest(seen, to)|
  }

  lemma {:induction false} ShlIsPush(x: bv8, z: nat)
    requires z <= 8
    ensures Shl(x, z) == PushAll(x, Falses(z))
    decreases z
  {
    hide Shl, Push;
    if z == 0 {
      ShlNone(x);
    } else {
      assert Falses(z)[1..] == Falses(z - 1);
      ShlOne(x, z);
      PushFalse(x);
      ShlIsPush(Shl(x, 1), z - 1);
    }
  }

  lemma PushFalse(x: bv8)
    ensures Push(x, false) == Shl(x, 1)
  {
  }

  lemma ShlZero(k: nat)
    requires k <= 8
    ensures Shl(0, k) == 0 && !High(Shl(0, k))
  {
  }

  lemma ZeroIffFalses(bits: Bits)
    requires |bits| <= 8
    ensures PushAll(0, bits) == 0 <==> true !in bits
  {
    hide Shl, High, PushAll, Carried;
    var n := |bits|;
    if PushAll(0, bits) == 0 {
      CarriedPushAll(0, bits);
      forall i | 0 <= i < n
        ensures !bits[i]
      {
        CarriedAt(0, n, i);
        ShlZero(8 - n + i);
      }
    }
    if true !in bits {
      NoneTrue(bits);
      ShlIsPush(0, n);
      ShlZero(n);
    }
  }

  lemma {:induction false} AllCarriedSnoc(data: seq<bv8>, b: bv8, n: nat)
    requires n <= 8
    ensures AllCarried(data + [b], n) == AllCarried(data, n) + Carried(b, n)
    decreases |data|
  {
    hide Carried;
    if data == [] {
      assert (data + [b])[1..] == [];
      assert AllCarried([b], n) == Carried(b, n) + AllCarried([], n);
    } else {
      assert (data + [b])[1..] == data[1..] + [b];
      AllCarriedSnoc(data[1..], b, n);
    }
  }

  /** One turn of the inner loop. */
  method Extract(ghost seen: Bits, to: nat, regrouped: seq<bv8>, nextByte: bv8, filled: nat, b: bv8, k: nat)
    returns (regrouped': seq<bv8>, nextByte': bv8, filled': nat)
    requires 0 < to <= 8 && Represents(seen, to, regrouped, nextByte, filled) && k + filled <= to
    ensures Represents(seen + TopBits(b, k), to, regrouped', nextByte', filled')
  {
    hide PushAll, Group, Rest, TopBits, Move;
    ghost var bits := TopBits(b, k);
    GroupAppend(seen, bits, to);
    MoveIsPush(nextByte, b, k);
    PushAllSplit(0, Rest(seen, to), bits);
    regrouped', nextByte', filled' := regrouped, Move(nextByte, b, k), filled + k;
    if filled' == to {
      regrouped', nextByte', filled' := regrouped' + [nextByte'], 0, 0;
      PushAllNone();
    }
  }

  lemma PushAllNone()
    ensures PushAll(0, []) == 0
  {
  }

  method Regroup(data: seq<bv8>, fromBits: nat, toBits: nat, pad: bool) returns (r: Result<seq<bv8>, Error>)
    ensures r == Convert(data, fromBits, toBits, pad)
  {
    hide PushAll, Group, Rest, TopBits, Shl, Padding, Carried;
    if fromBits < 1 || fromBits > 8 || toBits < 1 || toBits > 8 {
      return Err(InvalidBitGroups);
    }
    var regrouped: seq<bv8>, nextByte: bv8, filled: nat := [], 0, 0;
    ghost var seen: Bits := [];
    StartRepresents(toBits);
    for i := 0 to |data|
      invariant seen == AllCarried(data[..i], fromBits)
      invariant Represents(seen, toBits, regrouped, nextByte, filled)
    {
      ghost var target := seen + Carried(data[i], fromBits);
      regrouped, nextByte, filled := RegroupByte(seen, data[i], fromBits, toBits, regrouped, nextByte, filled);
      assert data[..i + 1] == data[..i] + [data[i]];
      AllCarriedSnoc(data[..i], data[i], fromBits);
      seen := target;
    }
    assert data[..|data|] == data;
    r := Finish(seen, toBits, regrouped, nextByte, filled, pad);
  }

  lemma StartRepresents(to: nat)
    requires to > 0
    ensures Represents([], to, [], 0, 0)
  {
  }

  method RegroupByte(ghost seen: Bits, byte: bv8, fromBits: nat, toBits: nat,
                     regrouped: seq<bv8>, nextByte: bv8, filled: nat)
    returns (regrouped': seq<bv8>, nextByte': bv8, filled': nat)
    requires 1 <= fromBits <= 8 && 1 <= toBits <= 8 && Represents(seen, toBits, regrouped, nextByte, filled)
    ensures Represents(seen + Carried(byte, fromBits), toBits, regrouped', nextByte', filled')
  {
    hide PushAll, Group, Rest, TopBits, Shl;
    regrouped', nextByte', filled' := regrouped, nextByte, filled;
    var b := Shl(byte, 8 - fromBits);
    var remFrom := fromBits;
    ghost var done := seen;
    while remFrom > 0
      invariant 0 <= remFrom <= fromBits
      invariant done + TopBits(b, remFrom) == seen + Carried(byte, fromBits)
      invariant Represents(done, toBits, regrouped', nextByte', filled')
      decreases remFrom
    {
      var remTo := toBits - filled';
      var k := if remTo < remFrom then remTo else remFrom;
      TopBitsSplit(b, k, remFrom);
      assert done + TopBits(b, remFrom) == (done + TopBits(b, k)) + TopBits(Shl(b, k), remFrom - k);
      regrouped', nextByte', filled' := Extract(done, toBits, regrouped', nextByte', filled', b, k);
      done := done + TopBits(b, k);
      b := Shl(b, k);
      remFrom := remFrom - k;
    }
    assert TopBits(b, 0) == [];
    assert done + [] == done;
  }

  method Finish(ghost seen: Bits, to: nat, regrouped: seq<bv8>, nextByte: bv8, filled: nat, pad: bool)
    returns (r: Result<seq<bv8>, Error>)
    requires 1 <= to <= 8 && Represents(seen, to, regrouped, nextByte, filled)
    ensures pad ==> r == Ok(Group(seen + Falses(Padding(seen, to)), to))
    ensures !pad && (filled > 4 || true in Rest(seen, to)) ==> r == Err(InvalidIncompleteGroup)
    ensures !pad && !(filled > 4 || true in Rest(seen, to)) ==> r == Ok(Group(seen, to))
  {
    hide PushAll, Group, Rest, Shl;
    ghost var rest := Rest(seen, to);
    ZeroIffFalses(rest);
    if pad && filled > 0 {
      ghost var fill := Falses(to - filled);
      GroupAppend(seen, fill, to);
      ShlIsPush(nextByte, to - filled);
      PushAllSplit(0, rest, fill);
      return Ok(regrouped + [Shl(nextByte, to - filled)]);
    }
    if filled > 0 && (filled > 4 || nextByte != 0) {
      return Err(InvalidIncompleteGroup);
    }
    assert seen + Falses(0) == seen;
    return Ok(regrouped);
  }
}
