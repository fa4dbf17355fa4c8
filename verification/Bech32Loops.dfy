/** The loops of the bech32 package, each proved against what `Bech32` says it computes. */
module Bech32Loops {
  import opened Wrappers
  import opened Bech32Checksum
  import opened Bech32

  /** The generator words, one for each bit shifted out. */
  function Generator(i: nat): bv32
    requires i < 5
  {
    match i
    case 0 => 0x3b6a57b2
    case 1 => 0x26508e6d
    case 2 => 0x1ea119fa
    case 3 => 0x3d4233dd
    case 4 => 0x2a1462b3
  }

  predicate BitAt(b: bv32, i: nat)
    requires i < 5
  {
    match i
    case 0 => Bit0(b)
    case 1 => Bit1(b)
    case 2 => Bit2(b)
    case 3 => Bit3(b)
    case 4 => Bit4(b)
  }

  /** The generator words added for the first bits. */
  function Partial(b: bv32, i: nat): bv32
    requires i <= 5
  {
    if i == 0 then 0 else Xor(Partial(b, i - 1), Pick(BitAt(b, i - 1), Generator(i - 1)))
  }

  lemma PartialAll(b: bv32)
    ensures Partial(b, 5) == Reduce(b)
  {
    hide Xor, Bit0, Bit1, Bit2, Bit3, Bit4, Pick, BitAt, Generator, Partial;
    PartialStep(b, 1);
    PartialStep(b, 2);
    PartialStep(b, 3);
    PartialStep(b, 4);
    PartialStep(b, 5);
    XorZero(Pick(BitAt(b, 0), Generator(0)));
    BitsAndWords(b);
  }

  lemma PartialStep(b: bv32, i: nat)
    requires 1 <= i <= 5
    ensures Partial(b, 0) == 0
    ensures Partial(b, i) == Xor(Partial(b, i - 1), Pick(BitAt(b, i - 1), Generator(i - 1)))
  {
    hide Xor, Pick, BitAt, Generator;
  }

  lemma BitsAndWords(b: bv32)
    ensures BitAt(b, 0) == Bit0(b) && BitAt(b, 1) == Bit1(b) && BitAt(b, 2) == Bit2(b)
    ensures BitAt(b, 3) == Bit3(b) && BitAt(b, 4) == Bit4(b)
    ensures Generator(0) == 0x3b6a57b2 && Generator(1) == 0x26508e6d && Generator(2) == 0x1ea119fa
    ensures Generator(3) == 0x3d4233dd && Generator(4) == 0x2a1462b3
  {
    hide Bit0, Bit1, Bit2, Bit3, Bit4;
  }

  lemma ShiftedBit(b: bv32, i: nat)
    requires i < 5
    ensures (b >> i) & 1 == 1 <==> BitAt(b, i)
  {
    if i == 0 {
      assert b >> 0 == b;
    } else if i == 1 {
      assert (b >> 1) & 1 == 1 <==> b & 2 == 2;
    } else if i == 2 {
      assert (b >> 2) & 1 == 1 <==> b & 4 == 4;
    } else if i == 3 {
      assert (b >> 3) & 1 == 1 <==> b & 8 == 8;
    } else {
      assert (b >> 4) & 1 == 1 <==> b & 16 == 16;
    }
  }

  /** One symbol: shift, add it, and add the generator word of each bit shifted out. */
  method Fold(chk: bv32, v: bv32) returns (r: bv32)
    ensures r == Step(chk, v)
  {
    hide Xor, Pick, BitAt, Generator, Reduce;
    var b := chk >> 25;
    r := Xor(Shift(chk), v);
    ghost var start := r;
    XorZero(start);
    for i := 0 to 5
      invariant r == Xor(start, Partial(b, i))
    {
      ShiftedBit(b, i);
      var g := Generator(i);
      XorAssoc(start, Partial(b, i), g);
      XorAssoc(start, Partial(b, i), 0);
      XorZero(r);
      PickEither(BitAt(b, i), g);
      if (b >> i) & 1 == 1 {
        r := Xor(r, g);
      }
    }
    PartialAll(b);
  }

  lemma PickEither(taken: bool, g: bv32)
    ensures Pick(taken, g) == if taken then g else 0
  {
  }

  lemma FeedSnoc(chk: bv32, xs: seq<bv32>, i: nat)
    requires i < |xs|
    ensures Feed(chk, xs[..i + 1]) == Step(Feed(chk, xs[..i]), xs[i])
  {
    hide Step;
    assert xs[..i + 1] == xs[..i] + [xs[i]];
    FeedAppend(chk, xs[..i], [xs[i]]);
    assert Feed(Feed(chk, xs[..i]), [xs[i]]) == Feed(Step(Feed(chk, xs[..i]), xs[i]), []);
  }

  lemma StateByParts(hrp: Text, values: seq<bv8>)
    ensures State(hrp, values)
         == Feed(Feed(Step(Feed(1, AllHighBits(hrp)), 0), AllLowBits(hrp)), WidenAll(values))
  {
    hide Step, AllHighBits, AllLowBits, WidenAll;
    var h, l, w := AllHighBits(hrp), AllLowBits(hrp), WidenAll(values);
    FeedAppend(1, h + [0] + l, w);
    FeedAppend(1, h + [0], l);
    FeedAppend(1, h, [0]);
    assert Feed(Feed(1, h), [0]) == Feed(Step(Feed(1, h), 0), []);
  }

  /** The polymod loops; an absent checksum stands for six zero symbols. */
  method Polymod(hrp: Text, values: seq<bv8>, checksum: Option<seq<bv8>>) returns (chk: bv32)
    ensures checksum.None? ==> chk == Feed(State(hrp, values), Zeros(6))
    ensures checksum.Some? ==> chk == State(hrp, values + checksum.value)
  {
    hide Step, Feed, State, WidenAll, AllHighBits, AllLowBits;
    chk := FoldHrp(hrp);
    StateByParts(hrp, values);
    chk := FoldValues(chk, values);
    match checksum
    case None =>
      chk := FoldZeros(chk);
    case Some(c) =>
      StateAppend(hrp, values, c);
      chk := FoldValues(chk, c);
  }

  method FoldHrp(hrp: Text) returns (chk: bv32)
    ensures chk == Feed(Step(Feed(1, AllHighBits(hrp)), 0), AllLowBits(hrp))
  {
    hide Step, HighBits, LowBitsOf;
    ghost var h, l := AllHighBits(hrp), AllLowBits(hrp);
    chk := 1;
    for i := 0 to |hrp|
      invariant chk == Feed(1, h[..i])
    {
      FeedSnoc(1, h, i);
      chk := Fold(chk, HighBits(hrp[i]));
    }
    assert h[..|hrp|] == h;
    chk := Fold(chk, 0);
    ghost var mid := chk;
    for i := 0 to |hrp|
      invariant chk == Feed(mid, l[..i])
    {
      FeedSnoc(mid, l, i);
      chk := Fold(chk, LowBitsOf(hrp[i]));
    }
    assert l[..|hrp|] == l;
  }

  method FoldValues(start: bv32, values: seq<bv8>) returns (chk: bv32)
    ensures chk == Feed(start, WidenAll(values))
  {
    hide Step, Wide;
    ghost var w := WidenAll(values);
    chk := start;
    for i := 0 to |values|
      invariant chk == Feed(start, w[..i])
    {
      FeedSnoc(start, w, i);
      chk := Fold(chk, Wide(values[i]));
    }
    assert w[..|values|] == w;
  }

  method FoldZeros(start: bv32) returns (chk: bv32)
    ensures chk == Feed(start, Zeros(6))
  {
    hide Step;
    ghost var w := Zeros(6);
    chk := start;
    for i := 0 to 6
      invariant chk == Feed(start, w[..i])
    {
      FeedSnoc(start, w, i);
      chk := Fold(chk, 0);
    }
    assert w[..6] == w;
  }

  /** The i-th group of five bits, the highest first. */
  function Group(p: bv32, i: nat): bv32
    requires i < 6
  {
    (p >> (5 * (5 - i))) & 31
  }

  lemma GroupIsUnpacked(p: bv32, i: nat)
    requires i < 6
    ensures Group(p, i) == Unpack(p)[i]
  {
    hide Group;
    if i < 3 {
      HighGroup(p, i);
    } else {
      LowGroup(p, i);
    }
  }

  lemma HighGroup(p: bv32, i: nat)
    requires i < 3
    ensures Group(p, i) == if i == 0 then (p >> 25) & 31 else if i == 1 then (p >> 20) & 31 else (p >> 15) & 31
  {
    if i == 0 {
      assert 5 * (5 - i) == 25;
    } else if i == 1 {
      assert 5 * (5 - i) == 20;
    } else {
      assert 5 * (5 - i) == 15;
    }
  }

  lemma LowGroup(p: bv32, i: nat)
    requires 3 <= i < 6
    ensures Group(p, i) == if i == 3 then (p >> 10) & 31 else if i == 4 then (p >> 5) & 31 else p & 31
  {
    if i == 3 {
      assert 5 * (5 - i) == 10;
    } else if i == 4 {
      assert 5 * (5 - i) == 5;
    } else {
      assert p >> 0 == p;
    }
  }

  method WriteChecksum(hrp: Text, data: seq<bv8>, written: Text, version: Version) returns (t: Text)
    ensures t == written + Chars(ChecksumValues(hrp, data, version))
  {
    hide State, Feed, Xor, Unpack, Char, Narrow, Group, Target;
    var zeros := Polymod(hrp, data, None);
    var p := Xor(zeros, Target(version));
    ghost var cs := ChecksumValues(hrp, data, version);
    t := written;
    for i := 0 to 6
      invariant t == written + Chars(cs[..i])
    {
      GroupIsUnpacked(p, i);
      assert cs[i] == Narrow(Group(p, i));
      t := t + [Char(Narrow(Group(p, i)))];
      assert Chars(cs[..i + 1]) == Chars(cs[..i]) + [Char(cs[i])];
    }
    assert cs[..6] == cs;
  }

  method VerifyChecksum(hrp: Text, data: seq<bv8>) returns (version: Option<Version>)
    requires |data| >= 6
    ensures forall v :: version == Some(v) <==> State(hrp, data) == Target(v)
  {
    hide State, Target;
    var polymod := Polymod(hrp, data[..|data| - 6], Some(data[|data| - 6..]));
    assert data[..|data| - 6] + data[|data| - 6..] == data;
    version := VersionOf(polymod);
  }

  method CharsToBytes(t: Text) returns (r: Result<seq<bv8>, Error>)
    ensures r == ToBytes(t)
  {
    hide Value;
    var decoded: seq<bv8> := [];
    var i := 0;
    assert t[0..] == t;
    assert forall rest: seq<bv8> :: decoded + rest == rest;
    while i < |t|
      invariant 0 <= i <= |t|
      invariant ToBytes(t) == Prefixed(decoded, ToBytes(t[i..]))
    {
      var index := Value(t[i]);
      assert t[i..][1..] == t[i + 1..];
      if index == NO_VALUE {
        return Err(NonCharsetChar(t[i]));
      }
      assert forall rest: seq<bv8> :: decoded + ([index] + rest) == (decoded + [index]) + rest;
      decoded := decoded + [index];
      i := i + 1;
    }
    assert decoded + [] == decoded;
    return Ok(decoded);
  }

  function Prefixed(decoded: seq<bv8>, r: Result<seq<bv8>, Error>): Result<seq<bv8>, Error> {
    match r
    case Ok(rest) => Ok(decoded + rest)
    case Err(e) => Err(e)
  }

  method ScanCharacters(t: Text) returns (r: Result<bool, Error>)
    ensures r == Scan(t, false, false)
  {
    hide IsPrintable, IsLower, IsUpper;
    var hasLower, hasUpper := false, false;
    var i := 0;
    assert t[0..] == t;
    while i < |t|
      invariant 0 <= i <= |t|
      invariant Scan(t, false, false) == Scan(t[i..], hasLower, hasUpper)
    {
      assert t[i..][1..] == t[i + 1..];
      if !IsPrintable(t[i]) {
        return Err(InvalidCharacter(t[i]));
      }
      hasLower := hasLower || IsLower(t[i]);
      hasUpper := hasUpper || IsUpper(t[i]);
      if hasLower && hasUpper {
        return Err(MixedCase);
      }
      i := i + 1;
    }
    return Ok(hasUpper);
  }

  method DecodeNoLimitWithVersion(bech: Text) returns (r: Result<Decoded, Error>)
    ensures r == Decode(bech)
  {
    hide Scan, ToBytes, State, ToLower, ChecksumValues, Chars, LastSeparator, Target;
    if |bech| < 8 {
      return Err(InvalidLength(|bech|));
    }
    var scanned := ScanCharacters(bech);
    if scanned.Err? {
      return Err(scanned.error);
    }
    var t := if scanned.value then ToLower(bech) else bech;
    var one := LastSeparator(t);
    if one < 1 || one + 7 > |t| {
      return Err(InvalidSeparatorIndex(one));
    }
    var hrp := t[..one];
    var decoded := CharsToBytes(t[one + 1..]);
    if decoded.Err? {
      return Err(decoded.error);
    }
    var symbols := decoded.value;
    var payload := symbols[..|symbols| - 6];
    var version := VerifyChecksum(hrp, symbols);
    if version.None? {
      var builder := WriteChecksum(hrp, payload, [], Version0);
      var expected := builder;
      assert expected == Chars(ChecksumValues(hrp, payload, Version0));
      builder := WriteChecksum(hrp, payload, builder, VersionM);
      return Err(InvalidChecksum(expected, builder, t[|t| - 6..]));
    }
    return Ok(Decoded(hrp, payload, version.value));
  }

  method EncodeGeneric(hrp: Text, data: seq<bv8>, version: Version) returns (r: Result<Text, Error>)
    ensures r == Encode(hrp, data, version)
  {
    hide ToLower, Char, ChecksumValues;
    var low := ToLower(hrp);
    var builder := low + [SEPARATOR];
    var i := 0;
    assert data[0..] == data;
    while i < |data|
      invariant 0 <= i <= |data|
      invariant FirstWide(data) == FirstWide(data[i..])
      invariant builder == low + [SEPARATOR] + Chars(data[..i])
    {
      assert data[i..][1..] == data[i + 1..];
      if data[i] >= 32 {
        return Err(InvalidDataByte(data[i]));
      }
      builder := builder + [Char(data[i])];
      assert Chars(data[..i + 1]) == Chars(data[..i]) + [Char(data[i])];
      i := i + 1;
    }
    assert data[..i] == data;
    builder := WriteChecksum(low, data, builder, version);
    ghost var cs := ChecksumValues(low, data, version);
    assert Chars(data + cs) == Chars(data) + Chars(cs);
    assert builder == low + [SEPARATOR] + (Chars(data) + Chars(cs));
    return Ok(builder);
  }
}
