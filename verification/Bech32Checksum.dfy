/**
 The BCH checksum of bech32 and bech32m (BIP 173, section "Bech32"; BIP 350, section
 "Bech32m"): a remainder over GF(2) computed one five-bit symbol at a time. The step is linear
 and injective on thirty-bit states; six symbols can cancel any state, and in only one way.
 */
module Bech32Checksum {

  /** Addition over GF(2). Named so that proofs can use its laws instead of its bits. */
  function Xor(a: bv32, b: bv32): bv32 {
    a ^ b
  }

  /** A generator word, taken when its bit is set. */
  function Pick(taken: bool, g: bv32): bv32 {
    if taken then g else 0
  }

  predicate Bit0(top: bv32) {
    top & 1 == 1
  }

  predicate Bit1(top: bv32) {
    top & 2 == 2
  }

  predicate Bit2(top: bv32) {
    top & 4 == 4
  }

  predicate Bit3(top: bv32) {
    top & 8 == 8
  }

  predicate Bit4(top: bv32) {
    top & 16 == 16
  }

  /** The sum of the generator words whose bits are set. */
  function Terms(p1: bool, p2: bool, p4: bool, p8: bool, p16: bool): bv32 {
    var r1 := Xor(Pick(p1, 0x3b6a57b2), Pick(p2, 0x26508e6d));
    var r2 := Xor(r1, Pick(p4, 0x1ea119fa));
    var r3 := Xor(r2, Pick(p8, 0x3d4233dd));
    Xor(r3, Pick(p16, 0x2a1462b3))
  }

  /** What the generator contributes for the five bits shifted out at the top. */
  function Reduce(top: bv32): bv32 {
    Terms(Bit0(top), Bit1(top), Bit2(top), Bit3(top), Bit4(top))
  }

  function Top(chk: bv32): bv32 {
    chk >> 25
  }

  function Shift(chk: bv32): bv32 {
    (chk & 0x1ffffff) << 5
  }

  function Step(chk: bv32, v: bv32): bv32 {
    Xor(Xor(Shift(chk), v), Reduce(Top(chk)))
  }

  /** The checksum state after a sequence of symbols. */
  function Feed(chk: bv32, vs: seq<bv32>): bv32
    decreases |vs|
  {
    if vs == [] then chk else Feed(Step(chk, vs[0]), vs[1..])
  }

  const STATE_LIMIT: bv32 := 0x4000_0000

  // ----- Laws of addition -----

  lemma XorAssoc(a: bv32, b: bv32, c: bv32)
    ensures Xor(Xor(a, b), c) == Xor(a, Xor(b, c)) && Xor(a, b) == Xor(b, a)
  {
  }

  lemma XorSwap(a: bv32, b: bv32, c: bv32, d: bv32)
    ensures Xor(Xor(a, b), Xor(c, d)) == Xor(Xor(a, c), Xor(b, d))
  {
    hide Xor;
    XorAssoc(Xor(a, b), c, d);
    XorAssoc(a, b, c);
    XorAssoc(c, b, a);
    XorAssoc(b, c, a);
    XorAssoc(a, c, b);
    XorAssoc(Xor(a, c), b, d);
  }

  lemma XorZero(a: bv32)
    ensures Xor(a, 0) == a && Xor(0, a) == a && Xor(a, a) == 0
  {
  }

  lemma XorCancel(a: bv32, b: bv32, c: bv32)
    requires Xor(a, c) == Xor(b, c)
    ensures a == b
  {
  }

  lemma XorBound(a: bv32, b: bv32)
    requires a < STATE_LIMIT && b < STATE_LIMIT
    ensures Xor(a, b) < STATE_LIMIT
  {
  }

  // ----- The step is linear over GF(2) -----

  lemma PickLinear(a: bool, b: bool, g: bv32)
    ensures Pick(a != b, g) == Xor(Pick(a, g), Pick(b, g))
  {
    hide Xor;
    XorZero(g);
    XorZero(0);
    if a {
    } else if b {
    }
  }

  lemma BitLinear(a: bv32, b: bv32)
    ensures Bit0(Xor(a, b)) == (Bit0(a) != Bit0(b))
    ensures Bit1(Xor(a, b)) == (Bit1(a) != Bit1(b))
    ensures Bit2(Xor(a, b)) == (Bit2(a) != Bit2(b))
    ensures Bit3(Xor(a, b)) == (Bit3(a) != Bit3(b))
    ensures Bit4(Xor(a, b)) == (Bit4(a) != Bit4(b))
  {
  }

  lemma TermsLinear(p1: bool, p2: bool, p4: bool, p8: bool, p16: bool,
                    q1: bool, q2: bool, q4: bool, q8: bool, q16: bool)
    ensures Terms(p1 != q1, p2 != q2, p4 != q4, p8 != q8, p16 != q16)
         == Xor(Terms(p1, p2, p4, p8, p16), Terms(q1, q2, q4, q8, q16))
  {
    hide Xor, Pick;
    PickLinear(p1, q1, 0x3b6a57b2);
    PickLinear(p2, q2, 0x26508e6d);
    PickLinear(p4, q4, 0x1ea119fa);
    PickLinear(p8, q8, 0x3d4233dd);
    PickLinear(p16, q16, 0x2a1462b3);
    var a1, b1 := Xor(Pick(p1, 0x3b6a57b2), Pick(p2, 0x26508e6d)), Xor(Pick(q1, 0x3b6a57b2), Pick(q2, 0x26508e6d));
    var a2, b2 := Xor(a1, Pick(p4, 0x1ea119fa)), Xor(b1, Pick(q4, 0x1ea119fa));
    var a3, b3 := Xor(a2, Pick(p8, 0x3d4233dd)), Xor(b2, Pick(q8, 0x3d4233dd));
    XorSwap(Pick(p1, 0x3b6a57b2), Pick(q1, 0x3b6a57b2), Pick(p2, 0x26508e6d), Pick(q2, 0x26508e6d));
    XorSwap(a1, b1, Pick(p4, 0x1ea119fa), Pick(q4, 0x1ea119fa));
    XorSwap(a2, b2, Pick(p8, 0x3d4233dd), Pick(q8, 0x3d4233dd));
    XorSwap(a3, b3, Pick(p16, 0x2a1462b3), Pick(q16, 0x2a1462b3));
  }

  lemma ReduceLinear(a: bv32, b: bv32)
    ensures Reduce(Xor(a, b)) == Xor(Reduce(a), Reduce(b))
  {
    hide Xor, Pick, Terms, Bit0, Bit1, Bit2, Bit3, Bit4;
    BitLinear(a, b);
    TermsLinear(Bit0(a), Bit1(a), Bit2(a), Bit3(a), Bit4(a),
                Bit0(b), Bit1(b), Bit2(b), Bit3(b), Bit4(b));
  }

  lemma ShiftLinear(a: bv32, b: bv32)
    ensures Shift(Xor(a, b)) == Xor(Shift(a), Shift(b))
    ensures Top(Xor(a, b)) == Xor(Top(a), Top(b))
  {
  }

  lemma StepLinear(a: bv32, x: bv32, b: bv32, y: bv32)
    ensures Step(Xor(a, b), Xor(x, y)) == Xor(Step(a, x), Step(b, y))
  {
    hide Xor, Shift, Reduce, Top;
    ShiftLinear(a, b);
    ReduceLinear(Top(a), Top(b));
    XorSwap(Shift(a), Shift(b), x, y);
    XorSwap(Xor(Shift(a), x), Xor(Shift(b), y), Reduce(Top(a)), Reduce(Top(b)));
  }

  // ----- The step keeps to thirty bits and is injective there -----

  lemma ReduceBound(top: bv32)
    ensures Reduce(top) < STATE_LIMIT
  {
  }

  lemma ShiftBound(a: bv32)
    ensures Shift(a) < STATE_LIMIT
  {
  }

  lemma StepBound(a: bv32, x: bv32)
    requires x < STATE_LIMIT
    ensures Step(a, x) < STATE_LIMIT
  {
    hide Xor, Shift, Reduce, Top;
    ShiftBound(a);
    ReduceBound(Top(a));
    XorBound(Shift(a), x);
    XorBound(Xor(Shift(a), x), Reduce(Top(a)));
  }

  lemma TermsLow(p1: bool, p2: bool, p4: bool, p8: bool, p16: bool)
    requires Terms(p1, p2, p4, p8, p16) & 31 == 0
    ensures !p1 && !p2 && !p4 && !p8 && !p16
  {
  }

  lemma LowCancel(x: bv32, y: bv32)
    requires x & 31 == y & 31
    ensures Xor(x, y) & 31 == 0
  {
  }

  lemma NoBits(a: bv32, b: bv32)
    requires a < 32 && b < 32
    requires !Bit0(Xor(a, b)) && !Bit1(Xor(a, b)) && !Bit2(Xor(a, b)) && !Bit3(Xor(a, b)) && !Bit4(Xor(a, b))
    ensures a == b
  {
  }

  lemma ReduceInjective(a: bv32, b: bv32)
    requires a < 32 && b < 32 && Reduce(a) & 31 == Reduce(b) & 31
    ensures a == b
  {
    hide Xor, Pick, Terms, Bit0, Bit1, Bit2, Bit3, Bit4;
    var d := Xor(a, b);
    ReduceLinear(a, b);
    LowCancel(Reduce(a), Reduce(b));
    TermsLow(Bit0(d), Bit1(d), Bit2(d), Bit3(d), Bit4(d));
    NoBits(a, b);
  }

  lemma LowBits(a: bv32, r: bv32)
    ensures Xor(Shift(a), r) & 31 == r & 31
  {
  }

  lemma Reassemble(a: bv32, b: bv32)
    requires a < STATE_LIMIT && b < STATE_LIMIT && Shift(a) == Shift(b) && Top(a) == Top(b)
    ensures a == b
  {
  }

  lemma TopBound(a: bv32)
    requires a < STATE_LIMIT
    ensures Top(a) < 32
  {
  }

  lemma StepInjective(a: bv32, b: bv32, v: bv32)
    requires a < STATE_LIMIT && b < STATE_LIMIT && Step(a, v) == Step(b, v)
    ensures a == b
  {
    hide Xor, Shift, Reduce, Top;
    var ra, rb := Reduce(Top(a)), Reduce(Top(b));
    StepMoveSymbol(a, v);
    StepMoveSymbol(b, v);
    XorCancel(Xor(Shift(a), ra), Xor(Shift(b), rb), v);
    TopSame(a, b);
    XorCancel(Shift(a), Shift(b), ra);
    Reassemble(a, b);
  }

  lemma TopSame(a: bv32, b: bv32)
    requires a < STATE_LIMIT && b < STATE_LIMIT
    requires Xor(Shift(a), Reduce(Top(a))) == Xor(Shift(b), Reduce(Top(b)))
    ensures Top(a) == Top(b)
  {
    hide Xor, Shift, Reduce, Top;
    LowBits(a, Reduce(Top(a)));
    LowBits(b, Reduce(Top(b)));
    TopBound(a);
    TopBound(b);
    ReduceInjective(Top(a), Top(b));
  }

  /** A symbol is simply added to the state that follows. */
  lemma StepMoveSymbol(a: bv32, v: bv32)
    ensures Step(a, v) == Xor(Xor(Shift(a), Reduce(Top(a))), v)
    ensures Step(a, v) == Xor(Step(a, 0), v)
  {
    hide Xor, Shift, Reduce, Top;
    var r := Reduce(Top(a));
    XorAssoc(Shift(a), v, r);
    XorAssoc(v, r, 0);
    XorAssoc(Shift(a), r, v);
    XorZero(Shift(a));
  }

  // ----- Whole sequences of symbols -----

  lemma {:induction false} FeedAppend(chk: bv32, xs: seq<bv32>, ys: seq<bv32>)
    ensures Feed(chk, xs + ys) == Feed(Feed(chk, xs), ys)
    decreases |xs|
  {
    hide Step;
    if xs == [] {
      assert xs + ys == ys;
    } else {
      assert (xs + ys)[1..] == xs[1..] + ys;
      FeedAppend(Step(chk, xs[0]), xs[1..], ys);
    }
  }

  predicate Small(xs: seq<bv32>) {
    forall i :: 0 <= i < |xs| ==> xs[i] < STATE_LIMIT
  }

  lemma {:induction false} FeedBound(chk: bv32, xs: seq<bv32>)
    requires chk < STATE_LIMIT && Small(xs)
    ensures Feed(chk, xs) < STATE_LIMIT
    decreases |xs|
  {
    hide Step;
    if xs != [] {
      StepBound(chk, xs[0]);
      FeedBound(Step(chk, xs[0]), xs[1..]);
    }
  }

  /** No two thirty-bit states can meet again, whatever symbols follow. */
  lemma {:induction false} FeedInjective(a: bv32, b: bv32, xs: seq<bv32>)
    requires a < STATE_LIMIT && b < STATE_LIMIT && Small(xs)
    requires Feed(a, xs) == Feed(b, xs)
    ensures a == b
    decreases |xs|
  {
    hide Step;
    if xs != [] {
      StepBound(a, xs[0]);
      StepBound(b, xs[0]);
      FeedInjective(Step(a, xs[0]), Step(b, xs[0]), xs[1..]);
      StepInjective(a, b, xs[0]);
    }
  }

  function Zeros(n: nat): seq<bv32> {
    seq(n, _ => 0)
  }

  /** What the symbols add does not depend on the state they are added to. */
  lemma {:induction false} FeedLinear(a: bv32, b: bv32, xs: seq<bv32>)
    ensures Feed(Xor(a, b), xs) == Xor(Feed(a, Zeros(|xs|)), Feed(b, xs))
    decreases |xs|
  {
    hide Step, Xor;
    if xs != [] {
      assert Zeros(|xs|)[1..] == Zeros(|xs[1..]|);
      XorZero(xs[0]);
      StepLinear(a, 0, b, xs[0]);
      FeedLinear(Step(a, 0), Step(b, xs[0]), xs[1..]);
    }
  }

  // ----- Six symbols fill the whole state -----

  /** Six five-bit symbols side by side, the first at the top. */
  function Pack(c0: bv32, c1: bv32, c2: bv32, c3: bv32, c4: bv32, c5: bv32): bv32 {
    (c0 << 25) | (c1 << 20) | (c2 << 15) | (c3 << 10) | (c4 << 5) | c5
  }

  /** The six five-bit symbols of a thirty-bit value, the highest first. */
  function Unpack(p: bv32): (cs: seq<bv32>)
    ensures |cs| == 6
  {
    [(p >> 25) & 31, (p >> 20) & 31, (p >> 15) & 31, (p >> 10) & 31, (p >> 5) & 31, p & 31]
  }

  predicate Symbols(cs: seq<bv32>) {
    forall i :: 0 <= i < |cs| ==> cs[i] < 32
  }

  lemma UnpackSymbols(p: bv32)
    ensures Symbols(Unpack(p))
  {
  }

  lemma PackUnpack(p: bv32)
    requires p < STATE_LIMIT
    ensures var cs := Unpack(p); Pack(cs[0], cs[1], cs[2], cs[3], cs[4], cs[5]) == p
  {
  }

  lemma UnpackPack(c0: bv32, c1: bv32, c2: bv32, c3: bv32, c4: bv32, c5: bv32)
    requires c0 < 32 && c1 < 32 && c2 < 32 && c3 < 32 && c4 < 32 && c5 < 32
    ensures Unpack(Pack(c0, c1, c2, c3, c4, c5)) == [c0, c1, c2, c3, c4, c5]
    ensures Pack(c0, c1, c2, c3, c4, c5) < STATE_LIMIT
  {
  }

  /** Appending one symbol to a packed value. */
  function Append(d: bv32, c: bv32): bv32 {
    (d << 5) | c
  }

  lemma StepSmall(d: bv32, c: bv32)
    requires d < 0x200_0000 && c < 32
    ensures Step(d, c) == Append(d, c)
  {
    hide Reduce;
    assert Top(d) == 0;
    ReduceZero();
  }

  lemma ReduceZero()
    ensures Reduce(0) == 0
  {
  }

  lemma PackByAppending(c0: bv32, c1: bv32, c2: bv32, c3: bv32, c4: bv32, c5: bv32)
    requires c0 < 32 && c1 < 32 && c2 < 32 && c3 < 32 && c4 < 32 && c5 < 32
    ensures Pack(c0, c1, c2, c3, c4, c5) == Append(Append(Append(Append(Append(c0, c1), c2), c3), c4), c5)
  {
  }

  lemma AppendBounds(c0: bv32, c1: bv32, c2: bv32, c3: bv32, c4: bv32)
    requires c0 < 32 && c1 < 32 && c2 < 32 && c3 < 32 && c4 < 32
    ensures Append(c0, c1) < 0x400
    ensures Append(Append(c0, c1), c2) < 0x8000
    ensures Append(Append(Append(c0, c1), c2), c3) < 0x10_0000
    ensures Append(Append(Append(Append(c0, c1), c2), c3), c4) < 0x200_0000
  {
  }

  lemma FeedSix(chk: bv32, cs: seq<bv32>)
    requires |cs| == 6
    ensures Feed(chk, cs)
         == Step(Step(Step(Step(Step(Step(chk, cs[0]), cs[1]), cs[2]), cs[3]), cs[4]), cs[5])
  {
    hide Step;
    var s3 := Step(Step(Step(chk, cs[0]), cs[1]), cs[2]);
    FeedThree(chk, cs[..3]);
    FeedThree(s3, cs[3..]);
    FeedAppend(chk, cs[..3], cs[3..]);
    assert cs[..3] + cs[3..] == cs;
  }

  lemma FeedThree(chk: bv32, cs: seq<bv32>)
    requires |cs| == 3
    ensures Feed(chk, cs) == Step(Step(Step(chk, cs[0]), cs[1]), cs[2])
  {
    hide Step;
    var s1 := Step(chk, cs[0]);
    var s2 := Step(s1, cs[1]);
    assert cs[1..][1..] == cs[2..] && cs[2..] == [cs[2]];
    assert Feed(s1, cs[1..]) == Feed(s2, cs[2..]);
    assert Feed(s2, [cs[2]]) == Feed(Step(s2, cs[2]), []);
  }

  lemma FeedFromZero(cs: seq<bv32>)
    requires |cs| == 6 && Symbols(cs)
    ensures Feed(0, cs) == Pack(cs[0], cs[1], cs[2], cs[3], cs[4], cs[5])
  {
    hide Step, Append, Pack;
    FeedSix(0, cs);
    AppendBounds(cs[0], cs[1], cs[2], cs[3], cs[4]);
    PackByAppending(cs[0], cs[1], cs[2], cs[3], cs[4], cs[5]);
    StepSmall(0, cs[0]);
    AppendZero(cs[0]);
    StepSmall(cs[0], cs[1]);
    var p2 := Append(cs[0], cs[1]);
    StepSmall(p2, cs[2]);
    StepSmall(Append(p2, cs[2]), cs[3]);
    StepSmall(Append(Append(p2, cs[2]), cs[3]), cs[4]);
    StepSmall(Append(Append(Append(p2, cs[2]), cs[3]), cs[4]), cs[5]);
  }

  lemma AppendZero(c: bv32)
    ensures Append(0, c) == c
  {
  }

  /** Six symbols are added to the state as a whole. */
  lemma SixAdded(chk: bv32, cs: seq<bv32>)
    requires |cs| == 6 && Symbols(cs)
    ensures Feed(chk, cs) == Xor(Feed(chk, Zeros(6)), Pack(cs[0], cs[1], cs[2], cs[3], cs[4], cs[5]))
  {
    hide Step, Xor, Feed, Pack;
    XorZero(chk);
    FeedLinear(chk, 0, cs);
    FeedFromZero(cs);
  }

  /** The checksum that leads from a state to the target. */
  function Checksum(chk: bv32, target: bv32): (cs: seq<bv32>)
    ensures |cs| == 6
  {
    Unpack(Xor(Feed(chk, Zeros(6)), target))
  }

  /** Exactly one choice of six symbols leads from a given state to a given target. */
  lemma ChecksumUnique(chk: bv32, target: bv32, cs: seq<bv32>)
    requires chk < STATE_LIMIT && target < STATE_LIMIT && |cs| == 6 && Symbols(cs)
    ensures Feed(chk, cs) == target <==> cs == Checksum(chk, target)
  {
    hide Step, Xor, Feed, Pack, Unpack;
    var s, p := Feed(chk, Zeros(6)), Pack(cs[0], cs[1], cs[2], cs[3], cs[4], cs[5]);
    FeedBound(chk, Zeros(6));
    XorBound(s, target);
    SixAdded(chk, cs);
    if Feed(chk, cs) == target {
      XorMove(s, p, target);
      UnpackPack(cs[0], cs[1], cs[2], cs[3], cs[4], cs[5]);
    }
    if cs == Checksum(chk, target) {
      PackUnpack(Xor(s, target));
      XorMove(s, p, target);
    }
  }

  lemma XorMove(a: bv32, b: bv32, c: bv32)
    ensures Xor(a, b) == c <==> b == Xor(a, c)
  {
    hide Xor;
    XorAssoc(a, a, b);
    XorAssoc(a, a, c);
    XorZero(a);
    XorZero(b);
    XorZero(c);
  }

  // ----- Burst errors -----

  lemma SymbolsSmall(cs: seq<bv32>)
    requires Symbols(cs)
    ensures Small(cs)
  {
  }

  /**
   Two sequences that differ only inside a window of six consecutive symbols, and that end in the
   same state, are equal: every burst of at most six wrong symbols is detected.
   */
  lemma BurstDetected(chk: bv32, p: seq<bv32>, w: seq<bv32>, v: seq<bv32>, q: seq<bv32>)
    requires chk < STATE_LIMIT && Small(p) && Small(q) && Symbols(w) && Symbols(v)
    requires |w| == |v| <= 6
    requires Feed(chk, p + w + q) == Feed(chk, p + v + q)
    ensures w == v
  {
    hide Step, Feed;
    var mid := Feed(chk, p);
    FeedBound(chk, p);
    FeedParts(chk, p, w, q);
    FeedParts(chk, p, v, q);
    SymbolsSmall(w);
    SymbolsSmall(v);
    FeedBound(mid, w);
    FeedBound(mid, v);
    FeedInjective(Feed(mid, w), Feed(mid, v), q);
    WindowInjective(mid, w, v);
  }

  lemma FeedParts(chk: bv32, p: seq<bv32>, w: seq<bv32>, q: seq<bv32>)
    ensures Feed(chk, p + w + q) == Feed(Feed(Feed(chk, p), w), q)
  {
    hide Step, Feed;
    FeedAppend(chk, p + w, q);
    FeedAppend(chk, p, w);
  }

  lemma WindowInjective(chk: bv32, w: seq<bv32>, v: seq<bv32>)
    requires chk < STATE_LIMIT && Symbols(w) && Symbols(v) && |w| == |v| <= 6
    requires Feed(chk, w) == Feed(chk, v)
    ensures w == v
  {
    hide Step, Feed, Checksum;
    var fill := Zeros(6 - |w|);
    FeedAppend(chk, w, fill);
    FeedAppend(chk, v, fill);
    SymbolsSmall(w + fill);
    FeedBound(chk, w + fill);
    ChecksumUnique(chk, Feed(chk, w + fill), w + fill);
    ChecksumUnique(chk, Feed(chk, w + fill), v + fill);
    assert w == (w + fill)[..|w|];
    assert v == (v + fill)[..|v|];
  }
}
