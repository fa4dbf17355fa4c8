/**
 Blocks: an 80-byte header and a counted list of transactions. The locations computed from
 the size functions are where the transactions really are in the serialized block.
 */
module BlockCodec {
  import opened Wrappers
  import opened Bytes
  import opened Codecs
  import opened TxCodec

  const HEADER_SIZE: nat := 80
  const MAX_BLOCK_PAYLOAD: nat := 4_000_000
  const MAX_TX_PER_BLOCK: nat := MAX_BLOCK_PAYLOAD / 10 + 1

  type Header = h: seq<Byte> | |h| == HEADER_SIZE witness seq(80, _ => 0)

  datatype Block = Block(header: Header, txs: seq<Tx>)

  /** A transaction gets a whole slab to itself, so the slab left by its neighbours is ignored. */
  function TxsCodec(): Codec<Tx> {
    Codec((tx: Tx) => WithinLimits(tx) && Expressible(tx, WitnessEncoding),
          (tx: Tx) => EncodeTx(tx, WitnessEncoding),
          (bs: seq<Byte>, _) => DecodeTx(bs, WitnessEncoding),
          (tx: Tx) => 0,
          SerializeSize)
  }

  lemma TxsLawful()
    ensures Lawful(TxsCodec())
  {
    var c := TxsCodec();
    forall bs, slab ensures 0 <= slab && c.dec(bs, slab).Ok? ==>
        var (v, rest) := c.dec(bs, slab).value;
        c.ok(v) && c.cost(v) <= slab && bs == c.enc(v) + rest {
      DecodeSound(bs, WitnessEncoding);
    }
    forall v, slab | c.ok(v) && c.cost(v) <= slab ensures AcceptsEncoding(c, v, slab) {
      forall rest ensures c.dec(c.enc(v) + rest, slab) == Ok((v, rest)) {
        DecodeComplete(v, WitnessEncoding, rest);
      }
    }
    forall v | c.ok(v) ensures |c.enc(v)| == c.size(v) {
      SerializeSizeExact(v);
    }
  }

  predicate BlockOk(b: Block) {
    |b.txs| <= MAX_TX_PER_BLOCK && AllOk(TxsCodec(), b.txs)
  }

  function EncodeBlock(b: Block): seq<Byte> {
    b.header + EncodeCounted(TxsCodec(), b.txs)
  }

  function DecodeBlock(bs: seq<Byte>): Parsed<Block> {
    var (header, r1) :- Take(bs, HEADER_SIZE);
    var (txs, r2) :- ParseCounted(TxsCodec(), MAX_TX_PER_BLOCK, TooManyTransactions, r1, 0);
    Ok((Block(header, txs), r2))
  }

  function BlockSize(b: Block): nat {
    HEADER_SIZE + SizeCounted(TxsCodec(), b.txs)
  }

  lemma {:induction false} TxsCostNothing(txs: seq<Tx>)
    ensures CostMany(TxsCodec(), txs) == 0
  {
    if txs != [] { TxsCostNothing(txs[1..]); }
  }

  /** The block decoder accepts exactly the encodings of blocks within the limits. */
  lemma BlockSound(bs: seq<Byte>)
    ensures var r := DecodeBlock(bs);
            r.Ok? ==> BlockOk(r.value.0) && bs == EncodeBlock(r.value.0) + r.value.1
  {
    TxsLawful();
    var r := DecodeBlock(bs);
    if r.Ok? {
      var (header, r1) := Take(bs, HEADER_SIZE).value;
      CountedSound(TxsCodec(), MAX_TX_PER_BLOCK, TooManyTransactions, r1, 0);
      Flatten3(header, EncodeCounted(TxsCodec(), r.value.0.txs), r.value.1);
    }
  }

  lemma BlockComplete(b: Block, rest: seq<Byte>)
    requires BlockOk(b)
    ensures DecodeBlock(EncodeBlock(b) + rest) == Ok((b, rest))
  {
    TxsLawful();
    TxsCostNothing(b.txs);
    var tail := EncodeCounted(TxsCodec(), b.txs) + rest;
    Flatten3(b.header, EncodeCounted(TxsCodec(), b.txs), rest);
    TakePrefix(b.header, tail);
    CountedComplete(TxsCodec(), MAX_TX_PER_BLOCK, TooManyTransactions, b.txs, 0, rest);
  }

  lemma BlockSizeExact(b: Block)
    requires BlockOk(b)
    ensures |EncodeBlock(b)| == BlockSize(b)
  {
    TxsLawful();
    CountedSized(TxsCodec(), b.txs);
  }

  /** Where transaction `i` starts, computed from the sizes of the ones before it. */
  function TxOffset(b: Block, i: nat): nat
    requires i <= |b.txs|
  {
    HEADER_SIZE + VarIntSize(|b.txs|) + SizeMany(TxsCodec(), b.txs[..i])
  }

  lemma {:induction false} ManySplit<T(!new)>(c: Codec<T>, vs: seq<T>, i: nat)
    requires Sized(c) && AllOk(c, vs) && i < |vs|
    ensures SizeMany(c, vs[..i]) + c.size(vs[i]) <= |EncodeMany(c, vs)|
    ensures EncodeMany(c, vs)[SizeMany(c, vs[..i])..][..c.size(vs[i])] == c.enc(vs[i])
  {
    var head, tail := c.enc(vs[0]), EncodeMany(c, vs[1..]);
    if i == 0 {
      assert (head + tail)[0..][..|head|] == head;
    } else {
      ManySplit(c, vs[1..], i - 1);
      assert vs[..i][1..] == vs[1..][..i - 1];
      var off := SizeMany(c, vs[1..][..i - 1]);
      assert (head + tail)[|head| + off..] == tail[off..];
    }
  }

  lemma CountedSplit<T(!new)>(c: Codec<T>, front: seq<Byte>, vs: seq<T>, i: nat, tail: seq<Byte>)
    requires Sized(c) && AllOk(c, vs) && i < |vs| < 0x1_0000_0000_0000_0000
    ensures var off := |front| + VarIntSize(|vs|) + SizeMany(c, vs[..i]);
            && off + c.size(vs[i]) <= |front + EncodeCounted(c, vs)|
            && (front + EncodeCounted(c, vs) + tail)[off..off + c.size(vs[i])] == c.enc(vs[i])
  {
    ManySplit(c, vs, i);
    VarIntComplete(|vs|, []);
    var count, body := EncodeVarInt(|vs|), EncodeMany(c, vs);
    Flatten3(front, count, body);
    SliceOfConcat(front + count, body, tail, SizeMany(c, vs[..i]), c.size(vs[i]));
  }

  /** The bytes at the computed location are the transaction's own serialization. */
  lemma TxSliceExact(b: Block, i: nat, tail: seq<Byte>)
    requires BlockOk(b) && i < |b.txs|
    ensures TxOffset(b, i) + SerializeSize(b.txs[i]) <= |EncodeBlock(b)|
    ensures (EncodeBlock(b) + tail)[TxOffset(b, i)..TxOffset(b, i) + SerializeSize(b.txs[i])]
         == EncodeTx(b.txs[i], WitnessEncoding)
  {
    hide EncodeCounted, EncodeMany, SizeMany, WithinLimits, HasWitness, SerializeSize, EncodeTx, VarIntSize;
    TxsLawful();
    CountedSplit(TxsCodec(), b.header, b.txs, i, tail);
  }

  lemma SliceOfConcat(front: seq<Byte>, body: seq<Byte>, tail: seq<Byte>, off: nat, size: nat)
    requires off + size <= |body|
    ensures (front + body + tail)[|front| + off..|front| + off + size] == body[off..][..size]
  {
  }

  lemma {:induction false} TxOffsetNext(b: Block, i: nat)
    requires i < |b.txs|
    ensures TxOffset(b, i + 1) == TxOffset(b, i) + SerializeSize(b.txs[i])
  {
    SizeSnoc(TxsCodec(), b.txs[..i], b.txs[i]);
    assert b.txs[..i + 1] == b.txs[..i] + [b.txs[i]];
  }
}
