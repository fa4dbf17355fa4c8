/**
 Bech32 and bech32m strings (BIP 173 and BIP 350) over bytes: what the decoder and the encoder
 compute, and how the two undo each other.
 */
module Bech32 {
  import opened Wrappers
  import opened Bech32Checksum

  /** A Go string: a sequence of bytes. */
  type Text = seq<bv8>

  datatype Version = Version0 | VersionM

  datatype Error =
    | InvalidLength(length: nat)
    | InvalidCharacter(c: bv8)
    | MixedCase
    | InvalidSeparatorIndex(index: int)
    | NonCharsetChar(c: bv8)
    | InvalidChecksum(expected: Text, expectedM: Text, actual: Text)
    | InvalidDataByte(b: bv8)

  datatype Decoded = Decoded(hrp: Text, data: seq<bv8>, version: Version)

  const SEPARATOR: bv8 := 0x31

  /** The state that a correct checksum of the version leads to. */
  function Target(version: Version): (t: bv32)
    ensures t < STATE_LIMIT
  {
    match version
    case Version0 => 1
    case VersionM => 0x2bc830a3
  }

  // ----- The character set -----

  /** The character of a five-bit value: "qpzry9x8gf2tvdw0s3jn54khce6mua7l". */
  function Char(v: bv8): bv8 {
    if v < 16 then
      if v < 8 then
        if v == 0 then 0x71 else if v == 1 then 0x70 else if v == 2 then 0x7a else if v == 3 then 0x72
        else if v == 4 then 0x79 else if v == 5 then 0x39 else if v == 6 then 0x78 else 0x38
      else
        if v == 8 then 0x67 else if v == 9 then 0x66 else if v == 10 then 0x32 else if v == 11 then 0x74
        else if v == 12 then 0x76 else if v == 13 then 0x64 else if v == 14 then 0x77 else 0x30
    else
      if v < 24 then
        if v == 16 then 0x73 else if v == 17 then 0x33 else if v == 18 then 0x6a else if v == 19 then 0x6e
        else if v == 20 then 0x35 else if v == 21 then 0x34 else if v == 22 then 0x6b else 0x68
      else
        if v == 24 then 0x63 else if v == 25 then 0x65 else if v == 26 then 0x36 else if v == 27 then 0x6d
        else if v == 28 then 0x75 else if v == 29 then 0x61 else if v == 30 then 0x37 else 0x6c
  }

  const NO_VALUE: bv8 := 0xff

  /** The position of a character in the set, counted from a given value; `NO_VALUE` if absent. */
  function Value(c: bv8, from: bv8 := 0): bv8
    decreases 32 - from as int
  {
    if from >= 32 then NO_VALUE else if Char(from) == c then from else Value(c, from + 1)
  }

  lemma CharInjective(v: bv8, w: bv8)
    requires v < 32 && w < 32 && Char(v) == Char(w)
    ensures v == w
  {
  }

  lemma {:induction false} ValueOfChar(v: bv8, from: bv8)
    requires from <= v < 32
    ensures Value(Char(v), from) == v
    decreases 32 - from as int
  {
    hide Char;
    if from < v {
      if Char(from) == Char(v) {
        CharInjective(from, v);
      }
      ValueOfChar(v, from + 1);
    }
  }

  lemma {:induction false} ValueFound(c: bv8, from: bv8)
    requires Value(c, from) != NO_VALUE
    ensures Value(c, from) < 32 && Char(Value(c, from)) == c
    decreases 32 - from as int
  {
    hide Char;
    if from < 32 && Char(from) != c {
      ValueFound(c, from + 1);
    }
  }

  predicate IsLower(c: bv8) {
    97 <= c <= 122
  }

  predicate IsUpper(c: bv8) {
    65 <= c <= 90
  }

  predicate IsPrintable(c: bv8) {
    33 <= c <= 126
  }

  function Lower(c: bv8): bv8 {
    if IsUpper(c) then c + 32 else c
  }

  lemma CharPlain(v: bv8)
    ensures IsPrintable(Char(v)) && !IsUpper(Char(v)) && Char(v) != SEPARATOR
  {
  }

  lemma LowerPlain(c: bv8)
    ensures !IsUpper(Lower(c)) && (IsPrintable(c) ==> IsPrintable(Lower(c))) && (!IsUpper(c) ==> Lower(c) == c)
  {
  }

  predicate FiveBit(vs: seq<bv8>) {
    forall i :: 0 <= i < |vs| ==> vs[i] < 32
  }

  function Chars(vs: seq<bv8>): (t: Text)
    ensures |t| == |vs|
  {
    seq(|vs|, i requires 0 <= i < |vs| => Char(vs[i]))
  }

  /** The values of the characters, or the first character outside the set. */
  function ToBytes(t: Text): (r: Result<seq<bv8>, Error>)
    ensures r.Ok? ==> |r.value| == |t|
    decreases |t|
  {
    if t == [] then Ok([])
    else if Value(t[0]) == NO_VALUE then Err(NonCharsetChar(t[0]))
    else
      match ToBytes(t[1..])
      case Ok(rest) => Ok([Value(t[0])] + rest)
      case Err(e) => Err(e)
  }

  lemma {:induction false} ToBytesOfChars(vs: seq<bv8>)
    requires FiveBit(vs)
    ensures ToBytes(Chars(vs)) == Ok(vs)
    decreases |vs|
  {
    hide Char, Value;
    if vs != [] {
      assert Chars(vs)[1..] == Chars(vs[1..]);
      ValueOfChar(vs[0], 0);
      ToBytesOfChars(vs[1..]);
      assert [vs[0]] + vs[1..] == vs;
    } else {
      assert Chars(vs) == [];
    }
  }

  lemma {:induction false} CharsOfBytes(t: Text)
    requires ToBytes(t).Ok?
    ensures FiveBit(ToBytes(t).value) && Chars(ToBytes(t).value) == t
    decreases |t|
  {
    hide Char, Value;
    if t != [] {
      ValueFound(t[0], 0);
      CharsOfBytes(t[1..]);
    }
  }

  // ----- Case and printability -----

  predicate Printable(t: Text) {
    forall i :: 0 <= i < |t| ==> IsPrintable(t[i])
  }

  predicate HasLower(t: Text) {
    exists i :: 0 <= i < |t| && IsLower(t[i])
  }

  predicate HasUpper(t: Text) {
    exists i :: 0 <= i < |t| && IsUpper(t[i])
  }

  function ToLower(t: Text): (r: Text)
    ensures |r| == |t|
  {
    seq(|t|, i requires 0 <= i < |t| => Lower(t[i]))
  }

  /** The character scan: whether an upper-case letter was seen, or the first fault. */
  function Scan(t: Text, lower: bool, upper: bool): Result<bool, Error>
    decreases |t|
  {
    if t == [] then Ok(upper)
    else if !IsPrintable(t[0]) then Err(InvalidCharacter(t[0]))
    else
      var l, u := lower || IsLower(t[0]), upper || IsUpper(t[0]);
      if l && u then Err(MixedCase) else Scan(t[1..], l, u)
  }

  /** The scan accepts exactly the printable strings that do not mix cases. */
  lemma {:induction false} ScanExact(t: Text, lower: bool, upper: bool)
    requires !(lower && upper)
    ensures Scan(t, lower, upper).Ok? <==> Printable(t) && !((lower || HasLower(t)) && (upper || HasUpper(t)))
    ensures Scan(t, lower, upper).Ok? ==> Scan(t, lower, upper).value == (upper || HasUpper(t))
    decreases |t|
  {
    hide IsPrintable, IsLower, IsUpper;
    if t != [] {
      var rest := t[1..];
      assert HasLower(t) <==> IsLower(t[0]) || HasLower(rest) by { TailLower(t); }
      assert HasUpper(t) <==> IsUpper(t[0]) || HasUpper(rest) by { TailUpper(t); }
      assert Printable(t) <==> IsPrintable(t[0]) && Printable(rest) by { TailPrintable(t); }
      var l, u := lower || IsLower(t[0]), upper || IsUpper(t[0]);
      if IsPrintable(t[0]) && !(l && u) {
        ScanExact(rest, l, u);
      }
    }
  }

  lemma TailPrintable(t: Text)
    requires t != []
    ensures Printable(t) <==> IsPrintable(t[0]) && Printable(t[1..])
  {
    if IsPrintable(t[0]) && Printable(t[1..]) {
      forall i | 0 <= i < |t|
        ensures IsPrintable(t[i])
      {
        if i > 0 {
          assert t[i] == t[1..][i - 1];
        }
      }
    }
  }

  lemma TailLower(t: Text)
    requires t != []
    ensures HasLower(t) <==> IsLower(t[0]) || HasLower(t[1..])
  {
    if HasLower(t) && !IsLower(t[0]) {
      var i :| 0 <= i < |t| && IsLower(t[i]);
      assert t[i] == t[1..][i - 1];
    }
    if HasLower(t[1..]) {
      var i :| 0 <= i < |t[1..]| && IsLower(t[1..][i]);
      assert t[i + 1] == t[1..][i];
    }
  }

  lemma TailUpper(t: Text)
    requires t != []
    ensures HasUpper(t) <==> IsUpper(t[0]) || HasUpper(t[1..])
  {
    if HasUpper(t) && !IsUpper(t[0]) {
      var i :| 0 <= i < |t| && IsUpper(t[i]);
      assert t[i] == t[1..][i - 1];
    }
    if HasUpper(t[1..]) {
      var i :| 0 <= i < |t[1..]| && IsUpper(t[1..][i]);
      assert t[i + 1] == t[1..][i];
    }
  }

  // ----- The separator -----

  /** The index of the last separator, -1 if there is none. */
  function LastSeparator(t: Text): (i: int)
    ensures -1 <= i < |t|
    decreases |t|
  {
    if t == [] then -1
    else if t[|t| - 1] == SEPARATOR then |t| - 1
    else LastSeparator(t[..|t| - 1])
  }

  lemma {:induction false} LastSeparatorAt(a: Text, b: Text)
    requires SEPARATOR !in b
    ensures LastSeparator(a + [SEPARATOR] + b) == |a|
    decreases |b|
  {
    var t := a + [SEPARATOR] + b;
    if b != [] {
      assert t[|t| - 1] == b[|b| - 1];
      assert t[..|t| - 1] == a + [SEPARATOR] + b[..|b| - 1];
      LastSeparatorAt(a, b[..|b| - 1]);
    }
  }

  lemma {:induction false} LastSeparatorFound(t: Text)
    requires LastSeparator(t) >= 0
    ensures t[LastSeparator(t)] == SEPARATOR
    decreases |t|
  {
    if t != [] && t[|t| - 1] != SEPARATOR {
      LastSeparatorFound(t[..|t| - 1]);
    }
  }

  // ----- The checksum of a string -----

  function Wide(v: bv8): bv32 {
    v as bv32
  }

  function Narrow(v: bv32): bv8 {
    (v & 31) as bv8
  }

  function WidenAll(vs: seq<bv8>): (ws: seq<bv32>)
    ensures |ws| == |vs|
  {
    seq(|vs|, i requires 0 <= i < |vs| => Wide(vs[i]))
  }

  function NarrowAll(ws: seq<bv32>): (vs: seq<bv8>)
    ensures |vs| == |ws|
  {
    seq(|ws|, i requires 0 <= i < |ws| => Narrow(ws[i]))
  }

  function HighBits(c: bv8): bv32 {
    (c >> 5) as bv32
  }

  function LowBitsOf(c: bv8): bv32 {
    (c & 31) as bv32
  }

  function AllHighBits(hrp: Text): (ws: seq<bv32>)
    ensures |ws| == |hrp|
  {
    seq(|hrp|, i requires 0 <= i < |hrp| => HighBits(hrp[i]))
  }

  function AllLowBits(hrp: Text): (ws: seq<bv32>)
    ensures |ws| == |hrp|
  {
    seq(|hrp|, i requires 0 <= i < |hrp| => LowBitsOf(hrp[i]))
  }

  /** The human-readable part as the checksum sees it: high bits, a zero, low bits. */
  function Expand(hrp: Text): seq<bv32> {
    AllHighBits(hrp) + [0] + AllLowBits(hrp)
  }

  /** The checksum state after the human-readable part and some values. */
  function State(hrp: Text, values: seq<bv8>): bv32 {
    Feed(1, Expand(hrp) + WidenAll(values))
  }

  lemma NarrowWide(v: bv8)
    requires v < 32
    ensures Narrow(Wide(v)) == v && Wide(v) < 32
  {
  }

  lemma WideNarrow(v: bv32)
    requires v < 32
    ensures Wide(Narrow(v)) == v && Narrow(v) < 32
  {
  }

  lemma WideBound(v: bv8)
    ensures Wide(v) < STATE_LIMIT && HighBits(v) < STATE_LIMIT && LowBitsOf(v) < STATE_LIMIT
  {
  }

  lemma WidenSymbols(vs: seq<bv8>)
    requires FiveBit(vs)
    ensures Symbols(WidenAll(vs)) && NarrowAll(WidenAll(vs)) == vs
  {
    hide Wide, Narrow;
    forall i | 0 <= i < |vs|
      ensures WidenAll(vs)[i] < 32 && NarrowAll(WidenAll(vs))[i] == vs[i]
    {
      NarrowWide(vs[i]);
    }
  }

  lemma NarrowSymbols(ws: seq<bv32>)
    requires Symbols(ws)
    ensures FiveBit(NarrowAll(ws)) && WidenAll(NarrowAll(ws)) == ws
  {
    hide Wide, Narrow;
    forall i | 0 <= i < |ws|
      ensures NarrowAll(ws)[i] < 32 && WidenAll(NarrowAll(ws))[i] == ws[i]
    {
      WideNarrow(ws[i]);
    }
  }

  lemma WidenSmall(vs: seq<bv8>)
    ensures Small(WidenAll(vs))
  {
    hide Wide, HighBits, LowBitsOf;
    forall i | 0 <= i < |vs|
      ensures WidenAll(vs)[i] < STATE_LIMIT
    {
      WideBound(vs[i]);
    }
  }

  lemma ExpandSmall(hrp: Text)
    ensures Small(Expand(hrp))
  {
    hide Wide, HighBits, LowBitsOf;
    forall i | 0 <= i < |hrp|
      ensures AllHighBits(hrp)[i] < STATE_LIMIT && AllLowBits(hrp)[i] < STATE_LIMIT
    {
      WideBound(hrp[i]);
    }
  }

  lemma StateBound(hrp: Text, values: seq<bv8>)
    ensures State(hrp, values) < STATE_LIMIT
  {
    hide Feed, Expand, WidenAll;
    ExpandSmall(hrp);
    WidenSmall(values);
    FeedBound(1, Expand(hrp) + WidenAll(values));
  }

  lemma StateAppend(hrp: Text, values: seq<bv8>, more: seq<bv8>)
    ensures State(hrp, values + more) == Feed(State(hrp, values), WidenAll(more))
  {
    hide Feed, Expand, Wide;
    var e := Expand(hrp);
    assert e + WidenAll(values + more) == (e + WidenAll(values)) + WidenAll(more);
    FeedAppend(1, e + WidenAll(values), WidenAll(more));
  }

  /** The six checksum values of a human-readable part and data. */
  function ChecksumValues(hrp: Text, data: seq<bv8>, version: Version): (cs: seq<bv8>)
    ensures |cs| == 6
  {
    NarrowAll(Checksum(State(hrp, data), Target(version)))
  }

  /** The version whose constant the symbols lead to, if any. */
  function VersionOf(state: bv32): (v: Option<Version>)
    ensures forall w :: v == Some(w) <==> state == Target(w)
  {
    if state == 1 then Some(Version0) else if state == 0x2bc830a3 then Some(VersionM) else None
  }

  /**
   Data followed by six more symbols leads to the constant of a version exactly when the six
   symbols are that version's checksum.
   */
  lemma ChecksumExact(hrp: Text, data: seq<bv8>, cs: seq<bv8>, version: Version)
    requires |cs| == 6 && FiveBit(cs)
    ensures State(hrp, data + cs) == Target(version) <==> cs == ChecksumValues(hrp, data, version)
  {
    hide State, Feed, WidenAll, NarrowAll, Checksum, Target;
    var s, t := State(hrp, data), Target(version);
    StateBound(hrp, data);
    StateAppend(hrp, data, cs);
    WidenSymbols(cs);
    ChecksumUnique(s, t, WidenAll(cs));
    ChecksumSymbols(s, t);
    NarrowSymbols(Checksum(s, t));
  }

  lemma ChecksumSymbols(s: bv32, t: bv32)
    ensures Symbols(Checksum(s, t))
  {
    hide Feed, Xor, Unpack;
    UnpackSymbols(Xor(Feed(s, Zeros(6)), t));
  }

  lemma ChecksumFiveBit(hrp: Text, data: seq<bv8>, version: Version)
    ensures FiveBit(ChecksumValues(hrp, data, version))
  {
    hide State, NarrowAll, Checksum, Target;
    ChecksumSymbols(State(hrp, data), Target(version));
    NarrowSymbols(Checksum(State(hrp, data), Target(version)));
  }

  // ----- Decoding and encoding -----

  /** The string of a human-readable part, data and checksum. */
  function Render(hrp: Text, data: seq<bv8>, version: Version): Text {
    hrp + [SEPARATOR] + Chars(data + ChecksumValues(hrp, data, version))
  }

  function Encode(hrp: Text, data: seq<bv8>, version: Version): Result<Text, Error> {
    match FirstWide(data)
    case Some(b) => Err(InvalidDataByte(b))
    case None => Ok(Render(ToLower(hrp), data, version))
  }

  /** The first byte that is not a five-bit value. */
  function FirstWide(data: seq<bv8>): (b: Option<bv8>)
    ensures b.None? <==> FiveBit(data)
    decreases |data|
  {
    if data == [] then None else if data[0] >= 32 then Some(data[0])
    else
      assert forall i :: 1 <= i < |data| ==> data[i] == data[1..][i - 1];
      FirstWide(data[1..])
  }

  /** Splits symbols into data and checksum and finds the version; both checksums on a mismatch. */
  function Check(hrp: Text, symbols: seq<bv8>, actual: Text): Result<Decoded, Error>
    requires |symbols| >= 6
  {
    var data := symbols[..|symbols| - 6];
    match VersionOf(State(hrp, symbols))
    case Some(v) => Ok(Decoded(hrp, data, v))
    case None =>
      var expected := Chars(ChecksumValues(hrp, data, Version0));
      Err(InvalidChecksum(expected, expected + Chars(ChecksumValues(hrp, data, VersionM)), actual))
  }

  /** Decoding once the characters are known to be in range and in one case. */
  function DecodeLower(t: Text): Result<Decoded, Error> {
    var one := LastSeparator(t);
    if one < 1 || one + 7 > |t| then Err(InvalidSeparatorIndex(one))
    else
      match ToBytes(t[one + 1..])
      case Err(e) => Err(e)
      case Ok(symbols) => Check(t[..one], symbols, t[|t| - 6..])
  }

  function Decode(t: Text): Result<Decoded, Error> {
    if |t| < 8 then Err(InvalidLength(|t|))
    else
      match Scan(t, false, false)
      case Err(e) => Err(e)
      case Ok(upper) => DecodeLower(if upper then ToLower(t) else t)
  }

  // ----- Decoding undoes encoding -----

  lemma CharsPlain(vs: seq<bv8>)
    ensures SEPARATOR !in Chars(vs) && Printable(Chars(vs)) && !HasUpper(Chars(vs))
  {
    hide Char, IsPrintable, IsUpper;
    forall i | 0 <= i < |vs|
      ensures Chars(vs)[i] != SEPARATOR && IsPrintable(Chars(vs)[i]) && !IsUpper(Chars(vs)[i])
    {
      CharPlain(vs[i]);
    }
  }

  /** Decoding a rendered human-readable part and data. */
  lemma DecodeRender(hrp: Text, data: seq<bv8>, version: Version)
    requires hrp != [] && FiveBit(data)
    ensures DecodeLower(Render(hrp, data, version)) == Ok(Decoded(hrp, data, version))
  {
    hide State, ChecksumValues, Chars, ToBytes, Target;
    var cs := ChecksumValues(hrp, data, version);
    var symbols := data + cs;
    var t := Render(hrp, data, version);
    CharsPlain(symbols);
    LastSeparatorAt(hrp, Chars(symbols));
    assert t[..|hrp|] == hrp && t[|hrp| + 1..] == Chars(symbols);
    ChecksumFiveBit(hrp, data, version);
    ToBytesOfChars(symbols);
    ChecksumExact(hrp, data, cs, version);
    assert symbols[..|symbols| - 6] == data;
  }

  lemma RenderPlain(hrp: Text, data: seq<bv8>, version: Version)
    requires Printable(hrp) && !HasUpper(hrp)
    ensures Scan(Render(hrp, data, version), false, false) == Ok(false)
  {
    hide Scan, Chars, ChecksumValues, IsPrintable, IsUpper;
    var vs := data + ChecksumValues(hrp, data, version);
    CharsPlain(vs);
    SeparatorPlain();
    var t := Render(hrp, data, version);
    assert Printable(t);
    assert !HasUpper(t);
    ScanExact(t, false, false);
  }

  lemma SeparatorPlain()
    ensures IsPrintable(SEPARATOR) && !IsUpper(SEPARATOR)
  {
  }

  lemma ToLowerPlain(t: Text)
    ensures !HasUpper(ToLower(t))
    ensures Printable(t) ==> Printable(ToLower(t))
    ensures !HasUpper(t) ==> ToLower(t) == t
  {
    hide Lower, IsPrintable, IsUpper;
    forall i | 0 <= i < |t|
      ensures !IsUpper(ToLower(t)[i]) && (IsPrintable(t[i]) ==> IsPrintable(ToLower(t)[i]))
           && (!IsUpper(t[i]) ==> ToLower(t)[i] == t[i])
    {
      LowerPlain(t[i]);
    }
  }

  /**
   For every nonempty printable human-readable part, every sequence of five-bit values and both
   versions, encoding succeeds and decoding the result gives the human-readable part in lower
   case, the same values and the same version.
   */
  lemma DecodeEncode(hrp: Text, data: seq<bv8>, version: Version)
    requires hrp != [] && Printable(hrp) && FiveBit(data)
    ensures Encode(hrp, data, version).Ok?
    ensures Decode(Encode(hrp, data, version).value) == Ok(Decoded(ToLower(hrp), data, version))
  {
    hide Scan, DecodeLower, ToLower, Render, Printable, HasUpper;
    var low := ToLower(hrp);
    ToLowerPlain(hrp);
    RenderPlain(low, data, version);
    DecodeRender(low, data, version);
    RenderLength(low, data, version);
  }

  lemma RenderLength(hrp: Text, data: seq<bv8>, version: Version)
    ensures |Render(hrp, data, version)| == |hrp| + |data| + 7
  {
    hide Chars, ChecksumValues;
  }

  // ----- Encoding undoes decoding -----

  lemma DecodeLowerExact(t: Text)
    requires DecodeLower(t).Ok?
    ensures var d := DecodeLower(t).value; d.hrp != [] && FiveBit(d.data) && t == Render(d.hrp, d.data, d.version)
  {
    hide State, ChecksumValues, Chars, ToBytes, Target;
    var one := LastSeparator(t);
    LastSeparatorFound(t);
    CharsOfBytes(t[one + 1..]);
    var symbols := ToBytes(t[one + 1..]).value;
    var data, cs := symbols[..|symbols| - 6], symbols[|symbols| - 6..];
    assert symbols == data + cs;
    ChecksumExact(t[..one], data, cs, DecodeLower(t).value.version);
    assert t == t[..one] + [SEPARATOR] + t[one + 1..];
  }

  /**
   Whatever the decoder accepts is printable, keeps to one case, and is the encoding of what was
   decoded up to case: no string has two decodings and no decoded value has two lower-case strings.
   */
  lemma EncodeDecode(t: Text)
    requires Decode(t).Ok?
    ensures var d := Decode(t).value;
      d.hrp != [] && Encode(d.hrp, d.data, d.version) == Ok(ToLower(t))
    ensures Printable(t) && !(HasLower(t) && HasUpper(t))
  {
    hide Scan, DecodeLower, ToLower, Printable, HasUpper, HasLower, Chars, ChecksumValues;
    ScanExact(t, false, false);
    ToLowerPlain(t);
    var d := Decode(t).value;
    DecodeLowerExact(ToLower(t));
    RenderLower(d.hrp, d.data, d.version);
  }

  lemma RenderLower(hrp: Text, data: seq<bv8>, version: Version)
    requires !HasUpper(Render(hrp, data, version))
    ensures ToLower(hrp) == hrp
  {
    hide Chars, ChecksumValues, IsUpper, ToLower;
    var t := Render(hrp, data, version);
    forall i | 0 <= i < |hrp|
      ensures !IsUpper(hrp[i])
    {
      assert hrp[i] == t[i];
    }
    ToLowerPlain(hrp);
  }

  // ----- What the checksum detects -----

  lemma StateParts(hrp: Text, p: seq<bv8>, w: seq<bv8>, q: seq<bv8>)
    ensures State(hrp, p + w + q) == Feed(1, (Expand(hrp) + WidenAll(p)) + WidenAll(w) + WidenAll(q))
  {
    hide Feed, Expand, Wide;
    var e := Expand(hrp);
    assert e + WidenAll(p + w + q) == (e + WidenAll(p)) + WidenAll(w) + WidenAll(q);
  }

  /** Symbols that differ only inside a window of six, and reach the same state, are the same. */
  lemma WindowDetected(hrp: Text, p: seq<bv8>, w: seq<bv8>, v: seq<bv8>, q: seq<bv8>)
    requires |w| == |v| <= 6 && FiveBit(w) && FiveBit(v)
    requires State(hrp, p + w + q) == State(hrp, p + v + q)
    ensures w == v
  {
    hide State, Feed, Expand, WidenAll, NarrowAll;
    StateParts(hrp, p, w, q);
    StateParts(hrp, p, v, q);
    ExpandSmall(hrp);
    WidenSmall(p);
    WidenSmall(q);
    WidenSymbols(w);
    WidenSymbols(v);
    BurstDetected(1, Expand(hrp) + WidenAll(p), WidenAll(w), WidenAll(v), WidenAll(q));
  }

  /** The strings agree at every position outside `lo..hi`. */
  predicate AgreeOutside(s: Text, t: Text, lo: int, hi: int)
    requires |s| == |t|
  {
    forall i :: 0 <= i < |s| && !(lo <= i < hi) ==> s[i] == t[i]
  }

  lemma CharsAgree(x: seq<bv8>, y: seq<bv8>, lo: int, hi: int)
    requires |x| == |y| && FiveBit(x) && FiveBit(y) && AgreeOutside(Chars(x), Chars(y), lo, hi)
    ensures forall i :: 0 <= i < |x| && !(lo <= i < hi) ==> x[i] == y[i]
  {
    hide Char;
    forall i | 0 <= i < |x| && !(lo <= i < hi)
      ensures x[i] == y[i]
    {
      assert Chars(x)[i] == Chars(y)[i];
      CharInjective(x[i], y[i]);
    }
  }

  lemma SymbolsDetected(hrp: Text, x: seq<bv8>, y: seq<bv8>, lo: nat, hi: nat)
    requires |x| == |y| && FiveBit(x) && FiveBit(y) && lo <= hi <= |x| && hi - lo <= 6
    requires forall i :: 0 <= i < |x| && !(lo <= i < hi) ==> x[i] == y[i]
    requires State(hrp, x) == State(hrp, y)
    ensures x == y
  {
    hide State;
    var p, q := x[..lo], x[hi..];
    assert p == y[..lo] && q == y[hi..];
    assert x == p + x[lo..hi] + q && y == p + y[lo..hi] + q;
    WindowDetected(hrp, p, x[lo..hi], y[lo..hi], q);
  }

  /**
   Two accepted strings of one length with the same human-readable part and version cannot differ
   only inside a window of six consecutive characters; in particular not in exactly one character.
   */
  lemma BurstRejected(s: Text, t: Text, k: nat)
    requires |s| == |t| && Decode(s).Ok? && Decode(t).Ok?
    requires Decode(s).value.hrp == Decode(t).value.hrp && Decode(s).value.version == Decode(t).value.version
    requires AgreeOutside(ToLower(s), ToLower(t), k, k + 6)
    ensures ToLower(s) == ToLower(t) && Decode(s) == Decode(t)
  {
    hide Scan, DecodeLower, ToLower, Printable, HasUpper, HasLower;
    ScanExact(s, false, false);
    ScanExact(t, false, false);
    ToLowerPlain(s);
    ToLowerPlain(t);
    BurstRejectedLower(ToLower(s), ToLower(t), k);
  }

  lemma BurstRejectedLower(s: Text, t: Text, k: nat)
    requires |s| == |t| && DecodeLower(s).Ok? && DecodeLower(t).Ok?
    requires DecodeLower(s).value.hrp == DecodeLower(t).value.hrp
    requires DecodeLower(s).value.version == DecodeLower(t).value.version
    requires AgreeOutside(s, t, k, k + 6)
    ensures s == t
  {
    hide State, DecodeLower, Chars, ChecksumValues, Target;
    var d, e := DecodeLower(s).value, DecodeLower(t).value;
    DecodeLowerExact(s);
    DecodeLowerExact(t);
    var cs, ct := ChecksumValues(d.hrp, d.data, d.version), ChecksumValues(e.hrp, e.data, e.version);
    ChecksumFiveBit(d.hrp, d.data, d.version);
    ChecksumFiveBit(e.hrp, e.data, e.version);
    ChecksumExact(d.hrp, d.data, cs, d.version);
    ChecksumExact(e.hrp, e.data, ct, e.version);
    RenderedDetected(d.hrp, d.data + cs, e.data + ct, k);
  }

  lemma RenderedDetected(hrp: Text, x: seq<bv8>, y: seq<bv8>, k: nat)
    requires |x| == |y| && FiveBit(x) && FiveBit(y) && State(hrp, x) == State(hrp, y)
    requires AgreeOutside(hrp + [SEPARATOR] + Chars(x), hrp + [SEPARATOR] + Chars(y), k, k + 6)
    ensures x == y
  {
    hide State, Chars;
    var off := |hrp| + 1;
    forall i | 0 <= i < |x| && !(k - off <= i < k + 6 - off)
      ensures Chars(x)[i] == Chars(y)[i]
    {
      assert (hrp + [SEPARATOR] + Chars(x))[i + off] == Chars(x)[i];
      assert (hrp + [SEPARATOR] + Chars(y))[i + off] == Chars(y)[i];
    }
    CharsAgree(x, y, k - off, k + 6 - off);
    var lo := if k < off then 0 else if k - off > |x| then |x| else k - off;
    var hi := if k + 6 < off then 0 else if k + 6 - off > |x| then |x| else k + 6 - off;
    SymbolsDetected(hrp, x, y, lo, hi);
  }

  // ----- The checksum error -----

  /**
   A checksum error reports what the checksum would have been: replacing the last six characters
   by `expected` gives a string that decodes as version 0, and by the last six of `expectedM` one
   that decodes as version M. The field meant for version M alone holds both checksums.
   */
  lemma SuggestedChecksum(t: Text)
    requires Decode(t).Err? && Decode(t).error.InvalidChecksum?
    ensures var e := Decode(t).error;
      && |e.expected| == 6 && |e.expectedM| == 12 && e.expectedM[..6] == e.expected && |t| >= 6
      && e.actual == ToLower(t)[|t| - 6..]
      && DecodesAs(ToLower(t)[..|t| - 6] + e.expected, Version0)
      && DecodesAs(ToLower(t)[..|t| - 6] + e.expectedM[6..], VersionM)
  {
    hide Scan, DecodeLower, ToLower, Printable, HasUpper, HasLower, DecodesAs;
    if |t| >= 8 && Scan(t, false, false).Ok? {
      ScanExact(t, false, false);
      ToLowerPlain(t);
      SuggestedLower(ToLower(t));
    } else {
      ScanFault(t, false, false);
    }
  }

  predicate DecodesAs(t: Text, version: Version) {
    DecodeLower(t).Ok? && DecodeLower(t).value.version == version
  }

  lemma {:induction false} ScanFault(t: Text, lower: bool, upper: bool)
    requires Scan(t, lower, upper).Err?
    ensures !Scan(t, lower, upper).error.InvalidChecksum?
    decreases |t|
  {
    if t != [] && IsPrintable(t[0]) {
      var l, u := lower || IsLower(t[0]), upper || IsUpper(t[0]);
      if !(l && u) {
        ScanFault(t[1..], l, u);
      }
    }
  }

  lemma {:induction false} ToBytesFault(t: Text)
    requires ToBytes(t).Err?
    ensures !ToBytes(t).error.InvalidChecksum?
    decreases |t|
  {
    hide Value;
    if t != [] && Value(t[0]) != NO_VALUE {
      ToBytesFault(t[1..]);
    }
  }

  lemma SuggestedLower(t: Text)
    requires DecodeLower(t).Err? && DecodeLower(t).error.InvalidChecksum?
    ensures var e := DecodeLower(t).error;
      && |e.expected| == 6 && |e.expectedM| == 12 && e.expectedM[..6] == e.expected && |t| >= 6
      && e.actual == t[|t| - 6..]
      && DecodesAs(t[..|t| - 6] + e.expected, Version0)
      && DecodesAs(t[..|t| - 6] + e.expectedM[6..], VersionM)
  {
    hide State, ChecksumValues, ToBytes, Chars, DecodesAs;
    var one := LastSeparator(t);
    var tail := t[one + 1..];
    if ToBytes(tail).Err? {
      ToBytesFault(tail);
    }
    var hrp, symbols := t[..one], ToBytes(tail).value;
    var data := symbols[..|symbols| - 6];
    var c0 := Chars(ChecksumValues(hrp, data, Version0));
    var cM := Chars(ChecksumValues(hrp, data, VersionM));
    assert (c0 + cM)[6..] == cM && (c0 + cM)[..6] == c0;
    Repaired(t, data, Version0);
    Repaired(t, data, VersionM);
  }

  lemma Repaired(t: Text, data: seq<bv8>, version: Version)
    requires 1 <= LastSeparator(t) && LastSeparator(t) + 7 <= |t|
    requires ToBytes(t[LastSeparator(t) + 1..]).Ok?
    requires var symbols := ToBytes(t[LastSeparator(t) + 1..]).value; data == symbols[..|symbols| - 6]
    ensures DecodesAs(t[..|t| - 6] + Chars(ChecksumValues(t[..LastSeparator(t)], data, version)), version)
  {
    hide State, ChecksumValues, ToBytes, Char, DecodeLower;
    var one := LastSeparator(t);
    var hrp := t[..one];
    var symbols := ToBytes(t[one + 1..]).value;
    var cs := ChecksumValues(hrp, data, version);
    LastSeparatorFound(t);
    CharsOfBytes(t[one + 1..]);
    assert t == hrp + [SEPARATOR] + Chars(symbols);
    assert Chars(symbols)[..|data|] == Chars(data);
    assert t[..|t| - 6] == hrp + [SEPARATOR] + Chars(data);
    assert Chars(data + cs) == Chars(data) + Chars(cs);
    assert t[..|t| - 6] + Chars(cs) == Render(hrp, data, version);
    DecodeRender(hrp, data, version);
  }
}
