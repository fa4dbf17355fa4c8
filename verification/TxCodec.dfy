/**
 The transaction wire format with its segregated-witness extension (BIP 144, section
 "Serialization"): what the encoder writes, what the decoder accepts, and how many bytes
 each takes. `DecodeSound`, `DecodeComplete` and `SerializeSizeExact` are the main results:
 the decoder accepts exactly the encodings of the transactions within its limits.
 */
module TxCodec {
  import opened Wrappers
  import opened Bytes
  import opened Codecs

  const MAX_MESSAGE_PAYLOAD: nat := 1024 * 1024 * 32
  const MAX_TX_IN: nat := MAX_MESSAGE_PAYLOAD / 41 + 1
  const MAX_TX_OUT: nat := MAX_MESSAGE_PAYLOAD / 9 + 1
  const MAX_WITNESS_ITEMS: nat := 4_000_000
  const MAX_SCRIPT: nat := 4_000_000
  const SLAB_SIZE: nat := 0x40_0000

  type Hash32 = h: seq<Byte> | |h| == 32 witness seq(32, _ => 0)

  /** A witness stack: a list of byte strings. */
  type Stack = seq<seq<Byte>>

  datatype OutPoint = OutPoint(hash: Hash32, index: U32)

  datatype TxIn = TxIn(prev: OutPoint, script: seq<Byte>, sequence: U32, wit: Stack)

  /** An input without its witness, which is serialized elsewhere. */
  datatype BareIn = BareIn(prev: OutPoint, script: seq<Byte>, sequence: U32)

  datatype TxOut = TxOut(value: I64, script: seq<Byte>)

  datatype Tx = Tx(version: I32, ins: seq<TxIn>, outs: seq<TxOut>, lockTime: U32)

  /** Whether witness data may be present in the stream. */
  datatype Encoding = BaseEncoding | WitnessEncoding

  // ----- Scripts: a length and that many bytes, read into the slab -----

  function EncodeScript(s: seq<Byte>): seq<Byte> {
    EncodeVarInt(|s|) + s
  }

  /** `slab` is how much of the decode slab is still free. */
  function ParseScript(bs: seq<Byte>, slab: int): Parsed<seq<Byte>> {
    var (n, rest) :- ParseVarInt(bs);
    if n > MAX_SCRIPT then Err(ScriptTooLong)
    else if n > slab then Err(SlabExhausted)
    else Take(rest, n)
  }

  function ScriptCodec(): Codec<seq<Byte>> {
    Codec((s: seq<Byte>) => |s| <= MAX_SCRIPT,
          EncodeScript,
          ParseScript,
          (s: seq<Byte>) => |s|,
          (s: seq<Byte>) => VarIntSize(|s|) + |s|)
  }

  lemma ScriptSound(bs: seq<Byte>, slab: int)
    ensures var r := ParseScript(bs, slab);
            r.Ok? ==>
              && |r.value.0| <= MAX_SCRIPT
              && |r.value.0| <= slab
              && bs == EncodeScript(r.value.0) + r.value.1
  {
    VarIntSound(bs);
    var r := ParseScript(bs, slab);
    if r.Ok? {
      var len := EncodeVarInt(ParseVarInt(bs).value.0);
      assert len + (r.value.0 + r.value.1) == (len + r.value.0) + r.value.1;
    }
  }

  lemma ScriptComplete(s: seq<Byte>, slab: int, rest: seq<Byte>)
    requires |s| <= MAX_SCRIPT && |s| <= slab
    ensures ParseScript(EncodeScript(s) + rest, slab) == Ok((s, rest))
  {
    assert EncodeScript(s) + rest == EncodeVarInt(|s|) + (s + rest);
    VarIntComplete(|s|, s + rest);
    TakePrefix(s, rest);
  }

  lemma ScriptLawful()
    ensures Lawful(ScriptCodec())
  {
    var c := ScriptCodec();
    forall bs, slab ensures 0 <= slab && c.dec(bs, slab).Ok? ==>
        var (v, rest) := c.dec(bs, slab).value;
        c.ok(v) && c.cost(v) <= slab && bs == c.enc(v) + rest {
      ScriptSound(bs, slab);
    }
    forall v, slab | c.ok(v) && c.cost(v) <= slab ensures AcceptsEncoding(c, v, slab) {
      forall rest ensures c.dec(c.enc(v) + rest, slab) == Ok((v, rest)) {
        ScriptComplete(v, slab, rest);
      }
    }
    forall v | c.ok(v) ensures |c.enc(v)| == c.size(v) {
      VarIntComplete(|v|, []);
    }
  }

  // ----- Inputs -----

  function EncodeIn(ti: BareIn): seq<Byte> {
    ti.prev.hash + LittleEndian(ti.prev.index, 4) + EncodeScript(ti.script)
      + LittleEndian(ti.sequence, 4)
  }

  function ParseIn(bs: seq<Byte>, slab: int): Parsed<BareIn> {
    var (hash, r1) :- Take(bs, 32);
    var (index, r2) :- Take(r1, 4);
    var (script, r3) :- ParseScript(r2, slab);
    var (sequence, r4) :- Take(r3, 4);
    Ok((BareIn(OutPoint(hash, Uint32(index)), script, Uint32(sequence)), r4))
  }

  function InCodec(): Codec<BareIn> {
    Codec((ti: BareIn) => |ti.script| <= MAX_SCRIPT,
          EncodeIn,
          ParseIn,
          (ti: BareIn) => |ti.script|,
          (ti: BareIn) => 40 + VarIntSize(|ti.script|) + |ti.script|)
  }

  lemma InSound(bs: seq<Byte>, slab: int)
    ensures var r := ParseIn(bs, slab);
            r.Ok? ==>
              && |r.value.0.script| <= MAX_SCRIPT
              && |r.value.0.script| <= slab
              && bs == EncodeIn(r.value.0) + r.value.1
  {
    var r := ParseIn(bs, slab);
    if r.Ok? {
      var r1 := Take(bs, 32).value;
      var r2 := Take(r1.1, 4).value;
      ScriptSound(r2.1, slab);
      var r3 := ParseScript(r2.1, slab).value;
      var r4 := Take(r3.1, 4).value;
      Flatten(r1.0, r2.0, EncodeScript(r3.0), r4.0, r4.1);
    }
  }

  lemma Flatten(a: seq<Byte>, b: seq<Byte>, c: seq<Byte>, d: seq<Byte>, e: seq<Byte>)
    ensures a + (b + (c + (d + e))) == (a + b + c + d) + e
  {
  }

  lemma InComplete(ti: BareIn, slab: int, rest: seq<Byte>)
    requires |ti.script| <= MAX_SCRIPT && |ti.script| <= slab
    ensures ParseIn(EncodeIn(ti) + rest, slab) == Ok((ti, rest))
  {
    var r3 := LittleEndian(ti.sequence, 4) + rest;
    var r2 := EncodeScript(ti.script) + r3;
    var r1 := LittleEndian(ti.prev.index, 4) + r2;
    Flatten(ti.prev.hash, LittleEndian(ti.prev.index, 4), EncodeScript(ti.script),
            LittleEndian(ti.sequence, 4), rest);
    TakePrefix(ti.prev.hash, r1);
    TakePrefix(LittleEndian(ti.prev.index, 4), r2);
    ScriptComplete(ti.script, slab, r3);
    TakePrefix(LittleEndian(ti.sequence, 4), rest);
    Uint32RoundTrip(ti.prev.index);
    Uint32RoundTrip(ti.sequence);
  }

  lemma InLawful()
    ensures Lawful(InCodec())
  {
    var c := InCodec();
    forall bs, slab ensures 0 <= slab && c.dec(bs, slab).Ok? ==>
        var (v, rest) := c.dec(bs, slab).value;
        c.ok(v) && c.cost(v) <= slab && bs == c.enc(v) + rest {
      InSound(bs, slab);
    }
    forall v, slab | c.ok(v) && c.cost(v) <= slab ensures AcceptsEncoding(c, v, slab) {
      forall rest ensures c.dec(c.enc(v) + rest, slab) == Ok((v, rest)) {
        InComplete(v, slab, rest);
      }
    }
    forall v | c.ok(v) ensures |c.enc(v)| == c.size(v) {
      VarIntComplete(|v.script|, []);
    }
  }

  // ----- Outputs -----

  function EncodeOut(to: TxOut): seq<Byte> {
    LittleEndian(ToUint64(to.value), 8) + EncodeScript(to.script)
  }

  function ParseOut(bs: seq<Byte>, slab: int): Parsed<TxOut> {
    var (value, r1) :- Take(bs, 8);
    var (script, r2) :- ParseScript(r1, slab);
    Ok((TxOut(ToInt64(Uint64(value)), script), r2))
  }

  function OutCodec(): Codec<TxOut> {
    Codec((to: TxOut) => |to.script| <= MAX_SCRIPT,
          EncodeOut,
          ParseOut,
          (to: TxOut) => |to.script|,
          (to: TxOut) => 8 + VarIntSize(|to.script|) + |to.script|)
  }

  lemma OutSound(bs: seq<Byte>, slab: int)
    ensures var r := ParseOut(bs, slab);
            r.Ok? ==>
              && |r.value.0.script| <= MAX_SCRIPT
              && |r.value.0.script| <= slab
              && bs == EncodeOut(r.value.0) + r.value.1
  {
    hide EncodeScript, ParseScript, LittleEndian;
    var r := ParseOut(bs, slab);
    if r.Ok? {
      var r1 := Take(bs, 8).value;
      ScriptSound(r1.1, slab);
      Flatten3(r1.0, EncodeScript(r.value.0.script), r.value.1);
    }
  }

  lemma OutComplete(to: TxOut, slab: int, rest: seq<Byte>)
    requires |to.script| <= MAX_SCRIPT && |to.script| <= slab
    ensures ParseOut(EncodeOut(to) + rest, slab) == Ok((to, rest))
  {
    var r1 := EncodeScript(to.script) + rest;
    assert EncodeOut(to) + rest == LittleEndian(ToUint64(to.value), 8) + r1;
    TakePrefix(LittleEndian(ToUint64(to.value), 8), r1);
    ScriptComplete(to.script, slab, rest);
    Uint64RoundTrip(ToUint64(to.value));
  }

  lemma OutLawful()
    ensures Lawful(OutCodec())
  {
    var c := OutCodec();
    forall bs, slab ensures 0 <= slab && c.dec(bs, slab).Ok? ==>
        var (v, rest) := c.dec(bs, slab).value;
        c.ok(v) && c.cost(v) <= slab && bs == c.enc(v) + rest {
      OutSound(bs, slab);
    }
    forall v, slab | c.ok(v) && c.cost(v) <= slab ensures AcceptsEncoding(c, v, slab) {
      forall rest ensures c.dec(c.enc(v) + rest, slab) == Ok((v, rest)) {
        OutComplete(v, slab, rest);
      }
    }
    forall v | c.ok(v) ensures |c.enc(v)| == c.size(v) {
      VarIntComplete(|v.script|, []);
    }
  }

  // ----- Witness stacks -----

  function EncodeStack(items: Stack): seq<Byte> {
    EncodeCounted(ScriptCodec(), items)
  }

  function ParseStack(bs: seq<Byte>, slab: int): Parsed<Stack> {
    ParseCounted(ScriptCodec(), MAX_WITNESS_ITEMS, TooManyWitnessItems, bs, slab)
  }

  predicate StackOk(items: Stack) {
    |items| <= MAX_WITNESS_ITEMS && AllOk(ScriptCodec(), items)
  }

  function StackSize(items: Stack): nat {
    SizeCounted(ScriptCodec(), items)
  }

  function StackCodec(): Codec<Stack> {
    Codec(StackOk, EncodeStack, ParseStack, items => CostMany(ScriptCodec(), items), StackSize)
  }

  lemma StackLawful()
    ensures Lawful(StackCodec())
  {
    ScriptLawful();
    var c := StackCodec();
    forall bs, slab ensures 0 <= slab && c.dec(bs, slab).Ok? ==>
        var (v, rest) := c.dec(bs, slab).value;
        c.ok(v) && c.cost(v) <= slab && bs == c.enc(v) + rest {
      if 0 <= slab { CountedSound(ScriptCodec(), MAX_WITNESS_ITEMS, TooManyWitnessItems, bs, slab); }
    }
    forall v, slab | c.ok(v) && c.cost(v) <= slab ensures AcceptsEncoding(c, v, slab) {
      forall rest ensures c.dec(c.enc(v) + rest, slab) == Ok((v, rest)) {
        CountedComplete(ScriptCodec(), MAX_WITNESS_ITEMS, TooManyWitnessItems, v, slab, rest);
      }
    }
    forall v | c.ok(v) ensures |c.enc(v)| == c.size(v) {
      CountedSized(ScriptCodec(), v);
    }
  }

  // ----- Transactions -----

  function Bare(ins: seq<TxIn>): (r: seq<BareIn>)
    ensures |r| == |ins|
  {
    seq(|ins|, i requires 0 <= i < |ins| => BareIn(ins[i].prev, ins[i].script, ins[i].sequence))
  }

  function Stacks(ins: seq<TxIn>): (r: seq<Stack>)
    ensures |r| == |ins|
  {
    seq(|ins|, i requires 0 <= i < |ins| => ins[i].wit)
  }

  function Attach(bare: seq<BareIn>, wits: seq<Stack>): (ins: seq<TxIn>)
    requires |bare| == |wits|
    ensures |ins| == |bare|
    ensures Bare(ins) == bare && Stacks(ins) == wits
  {
    seq(|bare|, i requires 0 <= i < |bare| =>
        TxIn(bare[i].prev, bare[i].script, bare[i].sequence, wits[i]))
  }

  lemma AttachInverse(ins: seq<TxIn>)
    ensures Attach(Bare(ins), Stacks(ins)) == ins
  {
  }

  function NoWitness(n: nat): (wits: seq<Stack>)
    ensures |wits| == n
  {
    seq(n, _ => [])
  }

  predicate AnyWitness(wits: seq<Stack>) {
    exists i :: 0 <= i < |wits| && wits[i] != []
  }

  predicate HasWitness(tx: Tx) {
    AnyWitness(Stacks(tx.ins))
  }

  lemma NoWitnessStacks(wits: seq<Stack>)
    ensures AnyWitness(wits) || wits == NoWitness(|wits|)
    ensures !AnyWitness(NoWitness(|wits|))
  {
    if !AnyWitness(wits) {
      assert forall i :: 0 <= i < |wits| ==> wits[i] == NoWitness(|wits|)[i];
    }
  }

  /** The slab space the scripts of a transaction need while it is being decoded. */
  function ScriptBytes(bare: seq<BareIn>, outs: seq<TxOut>, wits: seq<Stack>): nat {
    CostMany(InCodec(), bare) + CostMany(OutCodec(), outs) + CostMany(StackCodec(), wits)
  }

  predicate BodyOk(bare: seq<BareIn>, outs: seq<TxOut>) {
    && |bare| <= MAX_TX_IN
    && |outs| <= MAX_TX_OUT
    && AllOk(InCodec(), bare)
    && AllOk(OutCodec(), outs)
  }

  /** What the decoder can hold: counts, script sizes, and one slab for all the scripts. */
  predicate WithinLimits(tx: Tx) {
    && BodyOk(Bare(tx.ins), tx.outs)
    && AllOk(StackCodec(), Stacks(tx.ins))
    && ScriptBytes(Bare(tx.ins), tx.outs, Stacks(tx.ins)) <= SLAB_SIZE
  }

  /** The transactions an encoding can carry: a witness stream cannot express zero inputs. */
  predicate Expressible(tx: Tx, enc: Encoding) {
    match enc
    case BaseEncoding => !HasWitness(tx)
    case WitnessEncoding => tx.ins != []
  }

  /** The inputs, after their count, and the outputs with theirs. */
  function EncodeBody(bare: seq<BareIn>, outs: seq<TxOut>): seq<Byte> {
    EncodeMany(InCodec(), bare) + EncodeCounted(OutCodec(), outs)
  }

  function EncodeBase(tx: Tx): seq<Byte> {
    LittleEndian(ToUint32(tx.version), 4)
      + (EncodeVarInt(|tx.ins|) + EncodeBody(Bare(tx.ins), tx.outs))
      + LittleEndian(tx.lockTime, 4)
  }

  function EncodeTx(tx: Tx, enc: Encoding): seq<Byte> {
    if enc.WitnessEncoding? && HasWitness(tx) then
      LittleEndian(ToUint32(tx.version), 4)
        + [0x00, 0x01]
        + (EncodeVarInt(|tx.ins|) + EncodeBody(Bare(tx.ins), tx.outs))
        + EncodeMany(StackCodec(), Stacks(tx.ins))
        + LittleEndian(tx.lockTime, 4)
    else
      EncodeBase(tx)
  }

  function BaseSize(tx: Tx): nat {
    8 + VarIntSize(|tx.ins|) + VarIntSize(|tx.outs|)
      + SizeMany(InCodec(), Bare(tx.ins)) + SizeMany(OutCodec(), tx.outs)
  }

  function SerializeSize(tx: Tx): nat {
    if HasWitness(tx) then BaseSize(tx) + 2 + SizeMany(StackCodec(), Stacks(tx.ins)) else BaseSize(tx)
  }

  /** The number of inputs and whether the witness flag preceded it. */
  function ParseCount(bs: seq<Byte>, enc: Encoding): Parsed<(nat, bool)> {
    var (n, rest) :- ParseVarInt(bs);
    if n == 0 && enc.WitnessEncoding? then
      var (m, r1) :- ParseFlagged(rest);
      Ok(((m, true), r1))
    else Ok(((n, false), rest))
  }

  /** The flag after the marker byte, and the real number of inputs. */
  function ParseFlagged(bs: seq<Byte>): Parsed<nat> {
    var (flag, rest) :- Take(bs, 1);
    if flag[0] != 0x01 then Err(BadFlag) else ParseVarInt(rest)
  }

  /** Inputs and outputs, once the number of inputs is known. */
  function ParseBody(bs: seq<Byte>, n: nat): Parsed<(seq<BareIn>, seq<TxOut>)> {
    if n > MAX_TX_IN then Err(TooManyInputs)
    else ParseManyThenCounted(InCodec(), OutCodec(), MAX_TX_OUT, TooManyOutputs, bs, n, SLAB_SIZE)
  }

  function ParseWitness(bs: seq<Byte>, n: nat, flagged: bool, slab: int): (r: Parsed<seq<Stack>>)
    ensures r.Ok? ==> |r.value.0| == n
  {
    if !flagged then Ok((NoWitness(n), bs))
    else
      ManyCount(StackCodec(), bs, n, slab);
      var (wits, rest) :- ParseMany(StackCodec(), bs, n, slab);
      if !AnyWitness(wits) then Err(SuperfluousWitness) else Ok((wits, rest))
  }

  /** The slab space left for witness items once the inputs and outputs are in it. */
  function SlabLeft(bare: seq<BareIn>, outs: seq<TxOut>): int {
    SLAB_SIZE - CostMany(InCodec(), bare) - CostMany(OutCodec(), outs)
  }

  function ParseTail(bs: seq<Byte>, version: I32, bare: seq<BareIn>, outs: seq<TxOut>, flagged: bool)
    : Parsed<Tx>
  {
    var (wits, r1) :- ParseWitness(bs, |bare|, flagged, SlabLeft(bare, outs));
    var (lockTime, r2) :- Take(r1, 4);
    Ok((Tx(version, Attach(bare, wits), outs, Uint32(lockTime)), r2))
  }

  function DecodeTx(bs: seq<Byte>, enc: Encoding): Parsed<Tx> {
    var (version, r1) :- Take(bs, 4);
    var ((n, flagged), r2) :- ParseCount(r1, enc);
    var ((bare, outs), r3) :- ParseBody(r2, n);
    ParseTail(r3, ToInt32(Uint32(version)), bare, outs, flagged)
  }

  // ----- Every accepted byte string is an encoding -----

  lemma BodySound(bs: seq<Byte>, n: nat)
    ensures var r := ParseBody(bs, n);
            r.Ok? ==>
              var (bare, outs) := r.value.0;
              && |bare| == n
              && BodyOk(bare, outs)
              && 0 <= SlabLeft(bare, outs)
              && bs == EncodeBody(bare, outs) + r.value.1
  {
    InLawful();
    OutLawful();
    ManyThenCountedSound(InCodec(), OutCodec(), MAX_TX_OUT, TooManyOutputs, bs, n, SLAB_SIZE);
  }

  lemma WitnessSound(bs: seq<Byte>, n: nat, slab: int)
    requires 0 <= slab
    ensures var r := ParseWitness(bs, n, true, slab);
            r.Ok? ==>
              var wits := r.value.0;
              && AnyWitness(wits)
              && AllOk(StackCodec(), wits)
              && CostMany(StackCodec(), wits) <= slab
              && bs == EncodeMany(StackCodec(), wits) + r.value.1
  {
    StackLawful();
    ManySound(StackCodec(), bs, n, slab);
  }

  lemma FlaggedSound(bs: seq<Byte>)
    ensures var r := ParseFlagged(bs); r.Ok? ==> bs == [0x01] + (EncodeVarInt(r.value.0) + r.value.1)
  {
    if bs != [] { VarIntSound(bs[1..]); }
  }

  lemma CountSound(bs: seq<Byte>, enc: Encoding)
    ensures var r := ParseCount(bs, enc);
            r.Ok? ==>
              var (n, flagged) := r.value.0;
              && (flagged ==> enc.WitnessEncoding?)
              && (enc.WitnessEncoding? && !flagged ==> n > 0)
              && bs == (if flagged then [0x00, 0x01] else []) + (EncodeVarInt(n) + r.value.1)
  {
    VarIntSound(bs);
    if ParseVarInt(bs).Ok? {
      var (n, rest) := ParseVarInt(bs).value;
      FlaggedSound(rest);
      if n == 0 && enc.WitnessEncoding? && ParseFlagged(rest).Ok? {
        var tail := EncodeVarInt(ParseFlagged(rest).value.0) + ParseFlagged(rest).value.1;
        assert [0x00] + ([0x01] + tail) == [0x00, 0x01] + tail;
      }
    }
  }

  lemma TailSound(bs: seq<Byte>, version: I32, bare: seq<BareIn>, outs: seq<TxOut>, flagged: bool)
    requires 0 <= SlabLeft(bare, outs)
    ensures var r := ParseTail(bs, version, bare, outs, flagged);
            r.Ok? ==>
              var tx := r.value.0;
              && tx.version == version && tx.outs == outs && Bare(tx.ins) == bare
              && HasWitness(tx) == flagged
              && AllOk(StackCodec(), Stacks(tx.ins))
              && CostMany(StackCodec(), Stacks(tx.ins)) <= SlabLeft(bare, outs)
              && bs == (if flagged then EncodeMany(StackCodec(), Stacks(tx.ins)) else [])
                       + (LittleEndian(tx.lockTime, 4) + r.value.1)
  {
    var r := ParseTail(bs, version, bare, outs, flagged);
    if r.Ok? {
      if flagged {
        WitnessSound(bs, |bare|, SlabLeft(bare, outs));
      } else {
        NoWitnessStacks(Stacks(r.value.0.ins));
        NoWitnessFree(|bare|);
      }
    }
  }

  lemma {:induction false} NoWitnessFree(n: nat)
    ensures AllOk(StackCodec(), NoWitness(n))
    ensures CostMany(StackCodec(), NoWitness(n)) == 0
  {
    if n > 0 {
      assert NoWitness(n)[1..] == NoWitness(n - 1);
      NoWitnessFree(n - 1);
    }
  }

  /**
   Decoding is canonical: whatever is accepted is within the limits, and encoding it again
   gives back exactly the bytes that were consumed.
   */
  lemma DecodeSound(bs: seq<Byte>, enc: Encoding)
    ensures var r := DecodeTx(bs, enc);
            r.Ok? ==>
              && WithinLimits(r.value.0)
              && Expressible(r.value.0, enc)
              && bs == EncodeTx(r.value.0, enc) + r.value.1
  {
    var r := DecodeTx(bs, enc);
    if r.Ok? {
      var (version, r1) := Take(bs, 4).value;
      CountSound(r1, enc);
      var ((n, flagged), r2) := ParseCount(r1, enc).value;
      BodySound(r2, n);
      var ((bare, outs), r3) := ParseBody(r2, n).value;
      TailSound(r3, ToInt32(Uint32(version)), bare, outs, flagged);
      var (tx, rest) := r.value;
      assert |tx.ins| == n;
      Assemble(tx, flagged, version, rest);
    }
  }

  lemma Assemble(tx: Tx, flagged: bool, version: seq<Byte>, rest: seq<Byte>)
    requires version == LittleEndian(ToUint32(tx.version), 4)
    requires flagged == HasWitness(tx)
    ensures version
            + ((if flagged then [0x00, 0x01] else [])
               + (EncodeVarInt(|tx.ins|)
                  + (EncodeBody(Bare(tx.ins), tx.outs)
                     + ((if flagged then EncodeMany(StackCodec(), Stacks(tx.ins)) else [])
                        + (LittleEndian(tx.lockTime, 4) + rest)))))
            == (if flagged then EncodeTx(tx, WitnessEncoding) else EncodeBase(tx)) + rest
  {
    var count, body := EncodeVarInt(|tx.ins|), EncodeBody(Bare(tx.ins), tx.outs);
    var lock := LittleEndian(tx.lockTime, 4);
    if flagged {
      Flatten7(version, [0x00, 0x01], count, body, EncodeMany(StackCodec(), Stacks(tx.ins)), lock, rest);
    } else {
      Flatten7(version, [], count, body, [], lock, rest);
      assert version + [] == version;
      assert version + (count + body) + [] == version + (count + body);
    }
  }

  lemma Flatten7(a: seq<Byte>, b: seq<Byte>, c: seq<Byte>, d: seq<Byte>, e: seq<Byte>, f: seq<Byte>,
                 g: seq<Byte>)
    ensures a + (b + (c + (d + (e + (f + g))))) == (a + b + (c + d) + e + f) + g
  {
  }

  // ----- Every encoding is accepted -----

  lemma CountComplete(n: U64, flagged: bool, enc: Encoding, rest: seq<Byte>)
    requires flagged ==> enc.WitnessEncoding?
    requires enc.WitnessEncoding? && !flagged ==> n > 0
    ensures ParseCount((if flagged then [0x00, 0x01] else []) + (EncodeVarInt(n) + rest), enc)
         == Ok(((n, flagged), rest))
  {
    hide EncodeVarInt, FromLittleEndian;
    var tail := EncodeVarInt(n) + rest;
    VarIntComplete(n, rest);
    if flagged {
      var bs := [0x00, 0x01] + tail;
      assert bs[..1] == [0x00] && bs[1..] == [0x01] + tail;
      TakePrefix([0x01], tail);
    } else {
      assert [] + tail == tail;
    }
  }

  lemma BodyComplete(tx: Tx, rest: seq<Byte>)
    requires WithinLimits(tx)
    ensures ParseBody(EncodeBody(Bare(tx.ins), tx.outs) + rest, |tx.ins|)
         == Ok(((Bare(tx.ins), tx.outs), rest))
  {
    InLawful();
    OutLawful();
    ManyThenCountedComplete(InCodec(), OutCodec(), MAX_TX_OUT, TooManyOutputs, Bare(tx.ins), tx.outs,
                            SLAB_SIZE, rest);
  }

  lemma WitnessComplete(tx: Tx, rest: seq<Byte>)
    requires WithinLimits(tx)
    ensures var bs := (if HasWitness(tx) then EncodeMany(StackCodec(), Stacks(tx.ins)) else []) + rest;
            ParseWitness(bs, |tx.ins|, HasWitness(tx), SlabLeft(Bare(tx.ins), tx.outs))
            == Ok((Stacks(tx.ins), rest))
  {
    StackLawful();
    ManyComplete(StackCodec(), Stacks(tx.ins), SlabLeft(Bare(tx.ins), tx.outs), rest);
    NoWitnessStacks(Stacks(tx.ins));
    if !HasWitness(tx) { assert [] + rest == rest; }
  }

  lemma TailComplete(tx: Tx, rest: seq<Byte>)
    requires WithinLimits(tx)
    ensures ParseTail((if HasWitness(tx) then EncodeMany(StackCodec(), Stacks(tx.ins)) else [])
                      + (LittleEndian(tx.lockTime, 4) + rest),
                      tx.version, Bare(tx.ins), tx.outs, HasWitness(tx))
         == Ok((tx, rest))
  {
    var tail := LittleEndian(tx.lockTime, 4) + rest;
    WitnessComplete(tx, tail);
    TakePrefix(LittleEndian(tx.lockTime, 4), rest);
    Uint32RoundTrip(tx.lockTime);
    AttachInverse(tx.ins);
  }

  /** Every transaction within the limits is decoded back from its encoding, whatever follows. */
  lemma DecodeComplete(tx: Tx, enc: Encoding, rest: seq<Byte>)
    requires WithinLimits(tx) && Expressible(tx, enc)
    ensures DecodeTx(EncodeTx(tx, enc) + rest, enc) == Ok((tx, rest))
  {
    hide EncodeMany, EncodeVarInt, EncodeBody, LittleEndian, AnyWitness, ParseCount, ParseBody, ParseTail;
    var flagged := HasWitness(tx);
    var version := LittleEndian(ToUint32(tx.version), 4);
    var r3 := (if flagged then EncodeMany(StackCodec(), Stacks(tx.ins)) else [])
              + (LittleEndian(tx.lockTime, 4) + rest);
    var r2 := EncodeBody(Bare(tx.ins), tx.outs) + r3;
    var r1 := (if flagged then [0x00, 0x01] else []) + (EncodeVarInt(|tx.ins|) + r2);
    Assemble(tx, flagged, version, rest);
    TakePrefix(version, r1);
    Uint32RoundTrip(ToUint32(tx.version));
    CountComplete(|tx.ins|, flagged, enc, r2);
    BodyComplete(tx, r3);
    TailComplete(tx, rest);
  }

  // ----- Sizes, and cutting the witness out of a serialized transaction -----

  lemma BaseSizeExact(tx: Tx)
    requires WithinLimits(tx)
    ensures |EncodeBase(tx)| == BaseSize(tx)
    ensures |EncodeVarInt(|tx.ins|) + EncodeBody(Bare(tx.ins), tx.outs)| == BaseSize(tx) - 8
  {
    InLawful();
    OutLawful();
    VarIntComplete(|tx.ins|, []);
    ManySized(InCodec(), Bare(tx.ins));
    CountedSized(OutCodec(), tx.outs);
  }

  /** The size function returns exactly the number of bytes the encoder writes. */
  lemma SerializeSizeExact(tx: Tx)
    requires WithinLimits(tx)
    ensures |EncodeTx(tx, WitnessEncoding)| == SerializeSize(tx)
  {
    BaseSizeExact(tx);
    StackLawful();
    ManySized(StackCodec(), Stacks(tx.ins));
  }

  /** Version, then everything from the seventh byte for the base size, then the lock time. */
  function CutWitness(raw: seq<Byte>, baseSize: nat): seq<Byte>
    requires 8 <= baseSize && baseSize + 2 <= |raw|
  {
    raw[..4] + raw[6..6 + baseSize - 8] + raw[|raw| - 4..]
  }

  /** Cutting marker, flag and witnesses out of a serialization leaves the base serialization. */
  lemma CutWitnessIsBase(tx: Tx)
    requires WithinLimits(tx) && HasWitness(tx)
    ensures 8 <= BaseSize(tx) && BaseSize(tx) + 2 <= |EncodeTx(tx, WitnessEncoding)|
    ensures CutWitness(EncodeTx(tx, WitnessEncoding), BaseSize(tx)) == EncodeBase(tx)
  {
    hide EncodeMany, EncodeVarInt, EncodeBody, LittleEndian, AnyWitness, BaseSize, WithinLimits, CutWitness;
    BaseSizeExact(tx);
    var version, body := LittleEndian(ToUint32(tx.version), 4),
                         EncodeVarInt(|tx.ins|) + EncodeBody(Bare(tx.ins), tx.outs);
    CutPieces(version, body, EncodeMany(StackCodec(), Stacks(tx.ins)), LittleEndian(tx.lockTime, 4));
  }

  lemma CutPieces(version: seq<Byte>, body: seq<Byte>, wits: seq<Byte>, lock: seq<Byte>)
    requires |version| == 4 && |lock| == 4
    ensures CutWitness(version + [0x00, 0x01] + body + wits + lock, |body| + 8) == version + body + lock
  {
    var raw := version + [0x00, 0x01] + body + wits + lock;
    assert raw[..4] == version;
    assert raw[6..6 + |body|] == body;
    assert raw[|raw| - 4..] == lock;
  }
}
