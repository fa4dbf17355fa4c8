/** Segregated-witness addresses: a witness version and program as a bech32 or bech32m string. */
module Segwit {
  import Bits = ConvertBits
  import opened Wrappers
  import opened Bech32

  const MAX_LENGTH: nat := 90

  datatype SegwitError =
    | BadBech32(error: Error)
    | BadBits(bitsError: Bits.Error)
    | NoWitnessVersion
    | InvalidWitnessVersion(version: bv8)
    | InvalidDataLength(length: nat)
    | WrongEncoding
    | UnsupportedVersion(version: bv8)
    | SelfCheckFailed

  datatype Witness = Witness(version: bv8, program: seq<bv8>)

  function DecodeGeneric(t: Text): Result<Decoded, Error> {
    if |t| > MAX_LENGTH then Err(InvalidLength(|t|)) else Decode(t)
  }

  /** The version, length and encoding rules, once the string is decoded. */
  function FromDecoded(d: Decoded): Result<Witness, SegwitError> {
    if d.data == [] then Err(NoWitnessVersion)
    else
      var version := d.data[0];
      if version > 16 then Err(InvalidWitnessVersion(version))
      else
        match Bits.Convert(d.data[1..], 5, 8, false)
        case Err(e) => Err(BadBits(e))
        case Ok(program) =>
          if |program| < 2 || |program| > 40 then Err(InvalidDataLength(|program|))
          else if version == 0 && |program| != 20 && |program| != 32 then Err(InvalidDataLength(|program|))
          else if version == 0 && d.version != Version0 then Err(WrongEncoding)
          else if version == 1 && d.version != VersionM then Err(WrongEncoding)
          else Ok(Witness(version, program))
  }

  function DecodeSegwit(t: Text): Result<Witness, SegwitError> {
    match DecodeGeneric(t)
    case Err(e) => Err(BadBech32(e))
    case Ok(d) => FromDecoded(d)
  }

  function EncodeSegwit(hrp: Text, w: Witness): Result<Text, SegwitError> {
    match Bits.Convert(w.program, 8, 5, true)
    case Err(e) => Err(BadBits(e))
    case Ok(converted) =>
      if w.version > 1 then Err(UnsupportedVersion(w.version))
      else
        match Encode(hrp, [w.version] + converted, if w.version == 0 then Version0 else VersionM)
        case Err(e) => Err(BadBech32(e))
        case Ok(t) =>
          match DecodeSegwit(t)
          case Err(e) => Err(e)
          case Ok(back) => if back == w then Ok(t) else Err(SelfCheckFailed)
  }

  // ----- When encoding succeeds -----

  /** The lengths that the version allows. */
  predicate ProgramLength(w: Witness) {
    if w.version == 0 then |w.program| == 20 || |w.program| == 32 else 2 <= |w.program| <= 40
  }

  /** The conditions on version, program and human-readable part. */
  predicate Encodable(hrp: Text, w: Witness) {
    && w.version <= 1 && ProgramLength(w)
    && hrp != [] && Printable(hrp)
    && |hrp| + 8 + (8 * |w.program| + 4) / 5 <= 90
  }

  function VersionFor(w: Witness): Version {
    if w.version == 0 then Version0 else VersionM
  }

  lemma FiveBitFits(v: bv8)
    ensures Bits.Fits(v, 5) <==> v < 32
  {
    hide Bits.Shl;
    var c := Bits.Shl(v, 3);
    Bits.MoveIsPush(0, c, 5);
    MoveFive(v);
  }

  lemma MoveFive(v: bv8)
    ensures Bits.Move(0, Bits.Shl(v, 3), 5) == v & 31
    ensures v & 31 == v <==> v < 32
  {
  }

  lemma AllFiveBit(data: seq<bv8>)
    ensures Bits.AllFit(data, 5) <==> FiveBit(data)
  {
    hide Bits.Fits;
    forall i | 0 <= i < |data|
      ensures Bits.Fits(data[i], 5) <==> data[i] < 32
    {
      FiveBitFits(data[i]);
    }
  }

  lemma ConvertedLength(program: seq<bv8>)
    ensures Bits.Convert(program, 8, 5, true).Ok?
    ensures |Bits.Convert(program, 8, 5, true).value| == (8 * |program| + 4) / 5
  {
    hide Bits.Convert, Bits.AllCarried, Bits.Padding;
    Bits.PaddedCarriesSame(program, 8, 5);
    var out := Bits.Convert(program, 8, 5, true).value;
    Bits.AllCarriedLength(program, 8);
    Bits.AllCarriedLength(out, 5);
  }

  lemma ConvertedFiveBit(program: seq<bv8>)
    ensures Bits.Convert(program, 8, 5, true).Ok? && FiveBit(Bits.Convert(program, 8, 5, true).value)
  {
    hide Bits.Convert, Bits.AllCarried, Bits.Padding;
    Bits.PaddedCarriesSame(program, 8, 5);
    AllFiveBit(Bits.Convert(program, 8, 5, true).value);
  }

  /** The values that encoding hands to bech32. */
  function Payload(w: Witness): seq<bv8> {
    var c := Bits.Convert(w.program, 8, 5, true);
    if c.Ok? then [w.version] + c.value else []
  }

  lemma PayloadFiveBit(w: Witness)
    requires w.version <= 1
    ensures Bits.Convert(w.program, 8, 5, true).Ok?
    ensures Payload(w) == [w.version] + Bits.Convert(w.program, 8, 5, true).value
    ensures FiveBit(Payload(w)) && |Payload(w)| == 1 + (8 * |w.program| + 4) / 5
  {
    hide Bits.Convert;
    ConvertedFiveBit(w.program);
    ConvertedLength(w.program);
  }

  /** A decoded payload gives back the witness exactly when the program length is allowed. */
  lemma PayloadDecodes(hrp: Text, w: Witness)
    requires w.version <= 1
    ensures FromDecoded(Decoded(hrp, Payload(w), VersionFor(w))) ==
            if ProgramLength(w) then Ok(w) else Err(InvalidDataLength(|w.program|))
  {
    hide Bits.Convert;
    PayloadFiveBit(w);
    Bits.BytesRoundTrip(w.program);
    assert Payload(w)[1..] == Bits.Convert(w.program, 8, 5, true).value;
  }

  lemma EncodePayload(hrp: Text, w: Witness)
    requires w.version <= 1
    ensures Encode(hrp, Payload(w), VersionFor(w)) == Ok(Render(ToLower(hrp), Payload(w), VersionFor(w)))
    ensures |Render(ToLower(hrp), Payload(w), VersionFor(w))| == |hrp| + 8 + (8 * |w.program| + 4) / 5
  {
    hide Bits.Convert, Render, ToLower, Payload;
    PayloadFiveBit(w);
    RenderLength(ToLower(hrp), Payload(w), VersionFor(w));
  }

  /** Decoding what was rendered succeeds exactly for a nonempty printable human-readable part. */
  lemma RenderedDecodes(hrp: Text, data: seq<bv8>, version: Version)
    requires FiveBit(data)
    ensures Decode(Render(ToLower(hrp), data, version)).Ok? <==> hrp != [] && Printable(hrp)
    ensures hrp != [] && Printable(hrp) ==>
              Decode(Render(ToLower(hrp), data, version)) == Ok(Decoded(ToLower(hrp), data, version))
  {
    hide Decode, Render, ToLower, Printable;
    var t := Render(ToLower(hrp), data, version);
    if hrp != [] && Printable(hrp) {
      DecodeEncode(hrp, data, version);
    } else if Decode(t).Ok? {
      EncodeDecode(t);
      RenderNeedsHrp(hrp, data, version);
    }
  }

  lemma RenderNeedsHrp(hrp: Text, data: seq<bv8>, version: Version)
    requires Printable(Render(ToLower(hrp), data, version)) && Decode(Render(ToLower(hrp), data, version)).Ok?
    ensures hrp != [] && Printable(hrp)
  {
    hide Scan, Chars, ChecksumValues, IsPrintable, Lower, ToBytes, Check;
    var low := ToLower(hrp);
    var t := Render(low, data, version);
    forall i | 0 <= i < |hrp|
      ensures IsPrintable(hrp[i])
    {
      assert t[i] == Lower(hrp[i]);
      LowerPrintable(hrp[i]);
    }
    if hrp == [] {
      RenderPlain(low, data, version);
      var symbols := data + ChecksumValues(low, data, version);
      CharsPlain(symbols);
      LastSeparatorAt(low, Chars(symbols));
    }
  }

  lemma LowerPrintable(c: bv8)
    ensures IsPrintable(Lower(c)) ==> IsPrintable(c)
  {
  }

  /**
   Encoding succeeds exactly on encodable input, and its self-check never fails there; the result
   then decodes back to the witness.
   */
  lemma EncodeExact(hrp: Text, w: Witness)
    ensures EncodeSegwit(hrp, w).Ok? <==> Encodable(hrp, w)
    ensures EncodeSegwit(hrp, w).Ok? ==>
              EncodeSegwit(hrp, w).value == Render(ToLower(hrp), Payload(w), VersionFor(w))
              && DecodeSegwit(EncodeSegwit(hrp, w).value) == Ok(w)
  {
    hide Decode, Render, ToLower, Printable, FromDecoded, Payload, Bits.Convert, Encode;
    if w.version <= 1 {
      PayloadFiveBit(w);
      EncodePayload(hrp, w);
      RenderedDecodes(hrp, Payload(w), VersionFor(w));
      PayloadDecodes(ToLower(hrp), w);
    }
  }

  // ----- Decoding is canonical -----

  lemma DecodeOfLower(t: Text)
    requires Decode(t).Ok?
    ensures Decode(ToLower(t)) == Decode(t)
  {
    hide Scan, DecodeLower, ToLower, Printable, HasUpper, HasLower;
    ScanExact(t, false, false);
    ToLowerPlain(t);
    ScanExact(ToLower(t), false, false);
  }

  lemma DecodedFiveBit(t: Text)
    requires Decode(t).Ok?
    ensures FiveBit(Decode(t).value.data)
  {
    hide Decode, ToLower, Printable, HasUpper, HasLower, Render;
    EncodeDecode(t);
  }

  lemma RegroupBack(data: seq<bv8>)
    requires FiveBit(data) && Bits.Convert(data, 5, 8, false).Ok?
    ensures Bits.Convert(Bits.Convert(data, 5, 8, false).value, 8, 5, true) == Ok(data)
  {
    hide Bits.AllCarried, Bits.Group, Bits.Rest, Bits.Padding;
    AllFiveBit(data);
    Bits.RoundTripBack(data, 5, 8);
  }

  /** Every accepted version 0 or 1 address is, in lower case, the encoding of its witness. */
  lemma DecodeCanonical(t: Text)
    requires DecodeSegwit(t).Ok? && DecodeSegwit(t).value.version <= 1
    ensures Decode(t).Ok?
    ensures EncodeSegwit(Decode(t).value.hrp, DecodeSegwit(t).value) == Ok(ToLower(t))
  {
    hide Decode, ToLower, Printable, Encode, Bits.Convert, HasUpper, HasLower;
    var d, w := Decode(t).value, DecodeSegwit(t).value;
    EncodeDecode(t);
    DecodedFiveBit(t);
    RegroupBack(d.data[1..]);
    assert [w.version] + d.data[1..] == d.data;
    DecodeOfLower(t);
  }

  /**
   A string is accepted for a witness exactly when it has at most 90 characters and carries the
   witness's own symbols, and its version, length and checksum are allowed together. From version 2
   on either checksum will do.
   */
  lemma AcceptsExactly(t: Text, w: Witness)
    ensures Bits.Convert(w.program, 8, 5, true).Ok?
    ensures DecodeSegwit(t) == Ok(w) <==>
            && |t| <= 90 && Decode(t).Ok?
            && Decode(t).value.data == [w.version] + Bits.Convert(w.program, 8, 5, true).value
            && w.version <= 16 && 2 <= |w.program| <= 40
            && (w.version == 0 ==> (|w.program| == 20 || |w.program| == 32) && Decode(t).value.version == Version0)
            && (w.version == 1 ==> Decode(t).value.version == VersionM)
  {
    hide Decode, Bits.Convert;
    ConvertedFiveBit(w.program);
    Bits.BytesRoundTrip(w.program);
    var c := Bits.Convert(w.program, 8, 5, true).value;
    assert ([w.version] + c)[1..] == c;
    if DecodeSegwit(t) == Ok(w) {
      DecodedFiveBit(t);
      RegroupBack(Decode(t).value.data[1..]);
    }
  }

  // ----- The segwit branch of address decoding -----

  datatype Address =
    | PayToAnchor(hrp: Text)
    | WitnessPubKeyHash(hrp: Text, program: seq<bv8>)
    | WitnessScriptHash(hrp: Text, program: seq<bv8>)
    | Taproot(hrp: Text, program: seq<bv8>)

  datatype Decision = NotSegwit | Rejected(error: SegwitError) | Accepted(address: Address)

  const ANCHOR: seq<bv8> := [0x4e, 0x73]

  /** `known` says which human-readable parts are registered. */
  function DecodeAddress(t: Text, known: Text -> bool): Decision {
    var one := LastSeparator(t);
    if one <= 1 || !known(t[..one]) then NotSegwit
    else
      match DecodeSegwit(t)
      case Err(e) => Rejected(e)
      case Ok(w) =>
        var hrp := ToLower(t[..one]);
        if w.version > 1 then Rejected(UnsupportedVersion(w.version))
        else if |w.program| == 2 then
          if w.version == 1 && w.program == ANCHOR then Accepted(PayToAnchor(hrp))
          else Rejected(InvalidDataLength(2))
        else if |w.program| == 20 then Accepted(WitnessPubKeyHash(hrp, w.program))
        else if |w.program| == 32 then
          Accepted(if w.version == 1 then Taproot(hrp, w.program) else WitnessScriptHash(hrp, w.program))
        else Rejected(InvalidDataLength(|w.program|))
  }

  /** The witness an address is encoded from. */
  function WitnessOf(a: Address): Witness {
    match a
    case PayToAnchor(_) => Witness(1, ANCHOR)
    case WitnessPubKeyHash(_, program) => Witness(0, program)
    case WitnessScriptHash(_, program) => Witness(0, program)
    case Taproot(_, program) => Witness(1, program)
  }

  /** The string of an address; empty on an encoding error. */
  function EncodeAddress(a: Address): Text {
    match EncodeSegwit(a.hrp, WitnessOf(a))
    case Ok(t) => t
    case Err(_) => []
  }

  lemma {:induction false} LastSeparatorLower(t: Text)
    ensures LastSeparator(ToLower(t)) == LastSeparator(t)
    decreases |t|
  {
    hide Lower;
    if t != [] {
      LowerSeparator(t[|t| - 1]);
      assert ToLower(t)[..|t| - 1] == ToLower(t[..|t| - 1]);
      LastSeparatorLower(t[..|t| - 1]);
    }
  }

  lemma LowerSeparator(c: bv8)
    ensures Lower(c) == SEPARATOR <==> c == SEPARATOR
  {
  }

  lemma DecodedHrp(t: Text)
    requires Decode(t).Ok?
    ensures 1 <= LastSeparator(t) && Decode(t).value.hrp == ToLower(t[..LastSeparator(t)])
  {
    hide Scan, ToLower, Printable, HasUpper, HasLower, ToBytes, State, ChecksumValues, LastSeparator;
    ScanExact(t, false, false);
    ToLowerPlain(t);
    LastSeparatorLower(t);
    ToLowerPrefix(t, LastSeparator(t));
  }

  lemma ToLowerPrefix(t: Text, k: int)
    requires -1 <= k <= |t|
    ensures k >= 0 ==> ToLower(t)[..k] == ToLower(t[..k])
  {
    hide Lower;
  }

  /**
   An accepted address is printed back as the string it came from, in lower case, except exactly
   when the string holds a version 1 program of twenty bytes: that one is taken for a version 0
   key hash and printed as a different address.
   */
  lemma ReprintExact(t: Text, known: Text -> bool)
    requires DecodeAddress(t, known).Accepted?
    ensures DecodeSegwit(t).Ok?
    ensures var w := DecodeSegwit(t).value;
      EncodeAddress(DecodeAddress(t, known).address) == ToLower(t) <==> !(w.version == 1 && |w.program| == 20)
  {
    hide Decode, ToLower, EncodeSegwit, FromDecoded;
    var w, a := DecodeSegwit(t).value, DecodeAddress(t, known).address;
    var d := Decode(t).value;
    DecodedHrp(t);
    DecodeCanonical(t);
    assert a.hrp == d.hrp;
    if w.version == 1 && |w.program| == 20 {
      TwentyByteTaproot(t, w);
    }
  }

  lemma TwentyByteTaproot(t: Text, w: Witness)
    requires DecodeSegwit(t) == Ok(w) && w.version == 1 && |w.program| == 20
    ensures Decode(t).Ok?
    ensures EncodeSegwit(Decode(t).value.hrp, Witness(0, w.program)) != Ok(ToLower(t))
    ensures ToLower(t) != []
  {
    hide Decode, ToLower, EncodeSegwit, FromDecoded;
    DecodeCanonical(t);
    EncodeExact(Decode(t).value.hrp, Witness(0, w.program));
    EncodeExact(Decode(t).value.hrp, w);
    SegwitNonempty(t);
  }

  lemma SegwitNonempty(t: Text)
    requires DecodeSegwit(t).Ok?
    ensures ToLower(t) != []
  {
    hide Scan, DecodeLower, ToLower, FromDecoded;
  }

  /** What an address holds: a program of its kind's length that fits in a string, in lower case. */
  predicate WellFormed(a: Address) {
    && ToLower(a.hrp) == a.hrp && Encodable(a.hrp, WitnessOf(a))
    && match a
       case PayToAnchor(_) => true
       case WitnessPubKeyHash(_, program) => |program| == 20
       case WitnessScriptHash(_, program) => |program| == 32
       case Taproot(_, program) => |program| == 32
  }

  lemma PrintedSeparator(hrp: Text, w: Witness)
    requires ToLower(hrp) == hrp && Encodable(hrp, w)
    ensures EncodeSegwit(hrp, w).Ok?
    ensures var t := EncodeSegwit(hrp, w).value;
      LastSeparator(t) == |hrp| && t[..|hrp|] == hrp && DecodeSegwit(t) == Ok(w)
  {
    hide Decode, EncodeSegwit, FromDecoded, Payload, Chars, ChecksumValues, LastSeparator;
    EncodeExact(hrp, w);
    var symbols := Payload(w) + ChecksumValues(hrp, Payload(w), VersionFor(w));
    PayloadFiveBit(w);
    CharsPlain(symbols);
    LastSeparatorAt(hrp, Chars(symbols));
  }

  /** Every address prints to a string that decodes to it, exactly when its part is registered and not too short. */
  lemma AddressRoundTrip(a: Address, known: Text -> bool)
    requires WellFormed(a)
    ensures DecodeAddress(EncodeAddress(a), known) == if |a.hrp| >= 2 && known(a.hrp) then Accepted(a) else NotSegwit
  {
    hide EncodeSegwit, DecodeSegwit, LastSeparator, ToLower, Printable;
    PrintedSeparator(a.hrp, WitnessOf(a));
  }

  /** The witnesses an address of a registered part may hold. */
  lemma AcceptedExactly(t: Text, known: Text -> bool)
    requires LastSeparator(t) >= 2 && known(t[..LastSeparator(t)]) && DecodeSegwit(t).Ok?
    ensures var w := DecodeSegwit(t).value;
      && (DecodeAddress(t, known).Accepted? <==>
          w.version <= 1 && (|w.program| == 20 || |w.program| == 32 || w == Witness(1, [0x4e, 0x73])))
      && (w.version >= 2 ==> DecodeAddress(t, known) == Rejected(UnsupportedVersion(w.version)))
      && (w.version <= 1 && !DecodeAddress(t, known).Accepted? ==>
            DecodeAddress(t, known) == Rejected(InvalidDataLength(|w.program|)))
  {
    hide DecodeSegwit, LastSeparator, ToLower;
  }

  const MAINNET: Text := [0x6e, 0x63]

  /** Such a string exists: "nc" with version 1 and twenty zero bytes. */
  lemma TwentyByteExample(known: Text -> bool)
    requires known(MAINNET)
    ensures var w := Witness(1, seq(20, _ => 0));
      && EncodeSegwit(MAINNET, w).Ok?
      && DecodeAddress(EncodeSegwit(MAINNET, w).value, known).Accepted?
      && EncodeAddress(DecodeAddress(EncodeSegwit(MAINNET, w).value, known).address)
           != ToLower(EncodeSegwit(MAINNET, w).value)
  {
    hide Decode, EncodeSegwit, FromDecoded, Payload, Chars, ChecksumValues, LastSeparator;
    var w := Witness(1, seq(20, _ => 0));
    MainnetPlain();
    EncodeExact(MAINNET, w);
    var t := EncodeSegwit(MAINNET, w).value;
    var symbols := Payload(w) + ChecksumValues(MAINNET, Payload(w), VersionM);
    CharsPlain(symbols);
    LastSeparatorAt(MAINNET, Chars(symbols));
    assert t[..2] == MAINNET;
    ReprintExact(t, known);
  }

  lemma MainnetPlain()
    ensures Printable(MAINNET) && ToLower(MAINNET) == MAINNET
  {
    assert !HasUpper(MAINNET);
    ToLowerPlain(MAINNET);
  }
}
