/** That the checksum covers the human-readable part, in its high and in its low bits. */
module Bech32Part {
  import opened Bech32Checksum
  import opened Bech32
  import opened Wrappers

  /** The parts agree at every position outside a window of six. */
  predicate AgreeAround(p: Text, q: Text, k: nat) {
    |p| == |q| && forall i :: 0 <= i < |p| && !(k <= i < k + 6) ==> p[i] == q[i]
  }

  predicate SameHighBits(p: Text, q: Text) {
    |p| == |q| && forall i :: 0 <= i < |p| ==> p[i] >> 5 == q[i] >> 5
  }

  predicate SameLowBits(p: Text, q: Text) {
    |p| == |q| && forall i :: 0 <= i < |p| ==> p[i] & 31 == q[i] & 31
  }

  lemma BitsOf(c: bv8, d: bv8)
    ensures HighBits(c) < 32 && LowBitsOf(c) < 32
    ensures HighBits(c) == HighBits(d) <==> c >> 5 == d >> 5
    ensures LowBitsOf(c) == LowBitsOf(d) <==> c & 31 == d & 31
    ensures c >> 5 == d >> 5 && c & 31 == d & 31 ==> c == d
  {
  }

  lemma InThree<T>(a: seq<T>, lo: nat, hi: nat)
    requires lo <= hi <= |a|
    ensures a == a[..lo] + a[lo..hi] + a[hi..]
  {
  }

  lemma SameEnds<T>(a: seq<T>, b: seq<T>, lo: nat, hi: nat)
    requires |a| == |b| && lo <= hi <= |a| && forall i :: 0 <= i < |a| && !(lo <= i < hi) ==> a[i] == b[i]
    ensures a[..lo] == b[..lo] && a[hi..] == b[hi..]
  {
  }

  lemma SmallPart(a: seq<bv32>, lo: nat, hi: nat)
    requires Small(a) && lo <= hi <= |a|
    ensures Small(a[..lo]) && Small(a[hi..])
  {
  }

  lemma SymbolPart(a: seq<bv32>, lo: nat, hi: nat)
    requires lo <= hi <= |a| && forall i :: lo <= i < hi ==> a[i] < 32
    ensures Symbols(a[lo..hi])
  {
  }

  /** Sequences that differ only inside a window of six symbols, and lead to the same state, are the same. */
  lemma WindowCovered(a: seq<bv32>, b: seq<bv32>, lo: nat, hi: nat)
    requires |a| == |b| && lo <= hi <= |a| && hi - lo <= 6 && Small(a)
    requires forall i :: lo <= i < hi ==> a[i] < 32 && b[i] < 32
    requires forall i :: 0 <= i < |a| && !(lo <= i < hi) ==> a[i] == b[i]
    requires Feed(1, a) == Feed(1, b)
    ensures a == b
  {
    hide Feed, Small, Symbols;
    InThree(a, lo, hi);
    InThree(b, lo, hi);
    SameEnds(a, b, lo, hi);
    SmallPart(a, lo, hi);
    SymbolPart(a, lo, hi);
    SymbolPart(b, lo, hi);
    BurstDetected(1, a[..lo], a[lo..hi], b[lo..hi], a[hi..]);
  }

  function Clip(k: nat, n: nat): nat {
    if k < n then k else n
  }

  /** What the checksum reads: the high bits, a zero, the low bits, the values. */
  function Read(p: Text, values: seq<bv8>): seq<bv32> {
    Expand(p) + WidenAll(values)
  }

  lemma ReadAt(p: Text, values: seq<bv8>)
    ensures var a := Read(p, values); var n := |p|;
      && |a| == 2 * n + 1 + |values| && Small(a) && a[n] == 0 && (forall i :: 0 <= i <= 2 * n ==> a[i] < 32)
      && (forall i :: 0 <= i < n ==> a[i] == HighBits(p[i]))
      && (forall i :: n < i <= 2 * n ==> a[i] == LowBitsOf(p[i - n - 1]))
      && (forall i :: 2 * n < i < |a| ==> a[i] == Wide(values[i - 2 * n - 1]))
  {
    hide HighBits, LowBitsOf, Wide;
    ExpandSmall(p);
    WidenSmall(values);
    forall i | 0 <= i < |p|
      ensures HighBits(p[i]) < 32 && LowBitsOf(p[i]) < 32
    {
      BitsOf(p[i], p[i]);
    }
  }

  /** Parts that differ only in the low bits of six consecutive characters have different states. */
  lemma LowBitsCovered(p: Text, q: Text, values: seq<bv8>, k: nat)
    requires AgreeAround(p, q, k) && SameHighBits(p, q) && State(p, values) == State(q, values)
    ensures p == q
  {
    hide Feed, Expand, WidenAll, HighBits, LowBitsOf, Wide, Read;
    var a, b, n := Read(p, values), Read(q, values), |p|;
    ReadAt(p, values);
    ReadAt(q, values);
    forall i | 0 <= i < n
      ensures HighBits(p[i]) == HighBits(q[i])
    {
      BitsOf(p[i], q[i]);
    }
    StateReads(p, values);
    StateReads(q, values);
    WindowCovered(a, b, n + 1 + Clip(k, n), n + 1 + Clip(k + 6, n));
    forall i | 0 <= i < n
      ensures p[i] == q[i]
    {
      assert a[i + n + 1] == b[i + n + 1];
      BitsOf(p[i], q[i]);
    }
  }

  /** Parts that differ only in the high bits of six consecutive characters have different states. */
  lemma HighBitsCovered(p: Text, q: Text, values: seq<bv8>, k: nat)
    requires AgreeAround(p, q, k) && SameLowBits(p, q) && State(p, values) == State(q, values)
    ensures p == q
  {
    hide Feed, Expand, WidenAll, HighBits, LowBitsOf, Wide, Read;
    var a, b, n := Read(p, values), Read(q, values), |p|;
    ReadAt(p, values);
    ReadAt(q, values);
    forall i | 0 <= i < n
      ensures LowBitsOf(p[i]) == LowBitsOf(q[i])
    {
      BitsOf(p[i], q[i]);
    }
    StateReads(p, values);
    StateReads(q, values);
    WindowCovered(a, b, Clip(k, n), Clip(k + 6, n));
    forall i | 0 <= i < n
      ensures p[i] == q[i]
    {
      assert a[i] == b[i];
      BitsOf(p[i], q[i]);
    }
  }

  /** Two different parts of at most two characters, as all networks have, have different states. */
  lemma ShortPartCovered(p: Text, q: Text, values: seq<bv8>)
    requires |p| == |q| <= 2 && State(p, values) == State(q, values)
    ensures p == q
  {
    hide Feed, Expand, WidenAll, HighBits, LowBitsOf, Wide, Read;
    var a, b, n := Read(p, values), Read(q, values), |p|;
    ReadAt(p, values);
    ReadAt(q, values);
    StateReads(p, values);
    StateReads(q, values);
    WindowCovered(a, b, 0, 2 * n + 1);
    forall i | 0 <= i < n
      ensures p[i] == q[i]
    {
      assert a[i] == b[i] && a[i + n + 1] == b[i + n + 1];
      BitsOf(p[i], q[i]);
    }
  }

  lemma StateReads(p: Text, values: seq<bv8>)
    ensures State(p, values) == Feed(1, Read(p, values))
  {
  }

  /** Parts that the checksum tells apart. */
  predicate ToldApart(p: Text, q: Text, k: nat) {
    || (AgreeAround(p, q, k) && (SameHighBits(p, q) || SameLowBits(p, q)))
    || |p| == |q| <= 2
  }

  lemma PartCovered(p: Text, q: Text, values: seq<bv8>, k: nat)
    requires ToldApart(p, q, k) && State(p, values) == State(q, values)
    ensures p == q
  {
    hide State, SameHighBits, SameLowBits, AgreeAround;
    if |p| == |q| <= 2 {
      ShortPartCovered(p, q, values);
    } else if SameHighBits(p, q) {
      LowBitsCovered(p, q, values, k);
    } else {
      HighBitsCovered(p, q, values, k);
    }
  }

  /**
   Two accepted strings of one version that read the same from the separator on cannot differ in
   their human-readable parts only in the low bits, or only in the high bits, of six consecutive
   characters; and not at all when the parts have at most two characters.
   */
  lemma PartChangeRejected(s: Text, t: Text, k: nat)
    requires Decode(s).Ok? && Decode(t).Ok? && Decode(s).value.version == Decode(t).value.version
    requires ToldApart(Decode(s).value.hrp, Decode(t).value.hrp, k)
    requires ToLower(s)[|Decode(s).value.hrp|..] == ToLower(t)[|Decode(t).value.hrp|..]
    ensures ToLower(s) == ToLower(t)
  {
    hide Scan, DecodeLower, ToLower, Printable, HasUpper, HasLower, ToldApart;
    ScanExact(s, false, false);
    ScanExact(t, false, false);
    ToLowerPlain(s);
    ToLowerPlain(t);
    PartFits(ToLower(s));
    PartFits(ToLower(t));
    PartChangeLower(ToLower(s), ToLower(t), k);
  }

  lemma PartFits(t: Text)
    requires DecodeLower(t).Ok?
    ensures |DecodeLower(t).value.hrp| <= |t|
  {
    hide DecodeLower;
    var d := DecodeLower(t).value;
    DecodeLowerExact(t);
    RenderLength(d.hrp, d.data, d.version);
  }

  lemma PartChangeLower(s: Text, t: Text, k: nat)
    requires DecodeLower(s).Ok? && DecodeLower(t).Ok? && DecodeLower(s).value.version == DecodeLower(t).value.version
    requires ToldApart(DecodeLower(s).value.hrp, DecodeLower(t).value.hrp, k)
    requires |DecodeLower(s).value.hrp| <= |s| && |DecodeLower(t).value.hrp| <= |t|
    requires s[|DecodeLower(s).value.hrp|..] == t[|DecodeLower(t).value.hrp|..]
    ensures s == t
  {
    hide State, DecodeLower, Chars, ChecksumValues, Target, ToldApart;
    var d, e := DecodeLower(s).value, DecodeLower(t).value;
    DecodeLowerExact(s);
    DecodeLowerExact(t);
    var cs, ct := ChecksumValues(d.hrp, d.data, d.version), ChecksumValues(e.hrp, e.data, e.version);
    ChecksumFiveBit(d.hrp, d.data, d.version);
    ChecksumFiveBit(e.hrp, e.data, e.version);
    ChecksumExact(d.hrp, d.data, cs, d.version);
    ChecksumExact(e.hrp, e.data, ct, e.version);
    SameSymbols(d.hrp, e.hrp, d.data + cs, e.data + ct);
    PartCovered(d.hrp, e.hrp, d.data + cs, k);
    assert s == d.hrp + s[|d.hrp|..];
  }

  lemma SameSymbols(p: Text, q: Text, x: seq<bv8>, y: seq<bv8>)
    requires FiveBit(x) && FiveBit(y)
    requires (p + [SEPARATOR] + Chars(x))[|p|..] == (q + [SEPARATOR] + Chars(y))[|q|..]
    ensures x == y
  {
    hide Chars;
    var u, v := [SEPARATOR] + Chars(x), [SEPARATOR] + Chars(y);
    assert (p + [SEPARATOR] + Chars(x))[|p|..] == u && (q + [SEPARATOR] + Chars(y))[|q|..] == v;
    assert u[1..] == Chars(x) && v[1..] == Chars(y);
    SameChars(x, y);
  }

  lemma SameChars(x: seq<bv8>, y: seq<bv8>)
    requires FiveBit(x) && FiveBit(y) && Chars(x) == Chars(y)
    ensures x == y
  {
    CharsAgree(x, y, 0, 0);
  }

  // ----- Characters -----

  const CHARSET: string := "qpzry9x8gf2tvdw0s3jn54khce6mua7l"

  /** A value below 32 is written as the character at its place in the set. */
  lemma CharsetExact(v: bv8)
    requires v < 32
    ensures |CHARSET| == 32 && 0 <= v as int < 32 && Char(v) as int == CHARSET[v as int] as int
  {
  }

  /** Printable, upper-case and lower-case characters are those of ASCII, and lowering is ASCII's. */
  lemma AsciiExact(c: bv8)
    ensures IsPrintable(c) <==> '!' as int <= c as int <= '~' as int
    ensures IsUpper(c) <==> 'A' as int <= c as int <= 'Z' as int
    ensures IsLower(c) <==> 'a' as int <= c as int <= 'z' as int
    ensures Lower(c) as int == if IsUpper(c) then c as int - 'A' as int + 'a' as int else c as int
  {
  }

  // ----- Known strings -----

  /** The states that the symbols of "?1v759aa" pass through. */
  lemma QuestionSteps()
    ensures Step(1, 1) == 0x21 && Step(0x21, 0) == 0x420 && Step(0x420, 31) == 0x841f && Step(0x841f, 12) == 0x1083ec
    ensures Step(0x1083ec, 30) == 0x2107d9e && Step(0x2107d9e, 20) == 0x3965e466 && Step(0x3965e466, 5) == 0x254bc451
    ensures Step(0x254bc451, 29) == 0x253c66e3 && Step(0x253c66e3, 29) == 0x2bc830a3
  {
  }

  lemma QuestionState()
    ensures State([0x3f], [12, 30, 20, 5, 29, 29]) == 0x2bc830a3
  {
    hide Step, Feed;
    QuestionSteps();
    var all: seq<bv32> := [1, 0, 31, 12, 30, 20, 5, 29, 29];
    assert Expand([0x3f]) == [1, 0, 31];
    assert WidenAll([12, 30, 20, 5, 29, 29]) == [12, 30, 20, 5, 29, 29];
    assert Expand([0x3f]) + WidenAll([12, 30, 20, 5, 29, 29]) == all;
    FeedNine(1, all);
  }

  lemma FeedNine(chk: bv32, a: seq<bv32>)
    requires |a| == 9
    ensures Feed(chk, a) == Step(Step(Step(Step(Step(Step(Step(Step(Step(chk, a[0]), a[1]), a[2]), a[3]), a[4]), a[5]),
                                           a[6]), a[7]), a[8])
  {
    hide Step;
    FeedThree(chk, a);
    var one := Step(Step(Step(chk, a[0]), a[1]), a[2]);
    FeedThree(one, a[3..]);
    assert a[3..][3..] == a[6..];
    FeedThree(Step(Step(Step(one, a[3]), a[4]), a[5]), a[6..]);
    assert a[6..][3..] == [];
  }

  lemma FeedThree(chk: bv32, a: seq<bv32>)
    requires |a| >= 3
    ensures Feed(chk, a) == Feed(Step(Step(Step(chk, a[0]), a[1]), a[2]), a[3..])
  {
    hide Step;
    var b, c := a[1..], a[2..];
    assert b[1..] == c && c[1..] == a[3..];
    assert Feed(chk, a) == Feed(Step(chk, a[0]), b);
    assert Feed(Step(chk, a[0]), b) == Feed(Step(Step(chk, a[0]), a[1]), c);
  }

  /** The part "?" with no data is written "?1v759aa" in version M and read back. */
  lemma QuestionString()
    ensures Encode([0x3f], [], VersionM) == Ok([0x3f, 0x31, 0x76, 0x37, 0x35, 0x39, 0x61, 0x61])
    ensures Decode([0x3f, 0x31, 0x76, 0x37, 0x35, 0x39, 0x61, 0x61]) == Ok(Decoded([0x3f], [], VersionM))
  {
    hide State, Decode, Checksum, NarrowAll, ChecksumValues;
    var cs: seq<bv8> := [12, 30, 20, 5, 29, 29];
    QuestionState();
    assert [] + cs == cs;
    ChecksumExact([0x3f], [], cs, VersionM);
    assert Chars(cs) == [0x76, 0x37, 0x35, 0x39, 0x61, 0x61];
    assert ToLower([0x3f]) == [0x3f];
    var text: Text := [0x3f, 0x31, 0x76, 0x37, 0x35, 0x39, 0x61, 0x61];
    assert Render([0x3f], [], VersionM) == [0x3f] + [0x31] + Chars(cs) == text;
    assert FirstWide([]) == None;
    DecodeEncode([0x3f], [], VersionM);
  }
}
