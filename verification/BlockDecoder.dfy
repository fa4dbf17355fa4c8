/** The block decoder that also records where each transaction lies in the raw block. */
module BlockDecoder {
  import opened Wrappers
  import opened Bytes
  import opened Codecs
  import opened TxCodec
  import opened BlockCodec
  import opened TxDecoder

  datatype TxLoc = TxLoc(start: int, len: int)

  /** `DeserializeTxLoc`: the decoded block, and locations measured by what the reader consumed. */
  method DeserializeTxLoc(rd: Reader, slab: array<Byte>) returns (r: Decoding<Block>, locs: seq<TxLoc>)
    requires slab.Length == SLAB_SIZE
    modifies rd, slab
    ensures Follows(r, rd.rest, DecodeBlock(old(rd.rest)))
    ensures r.Ok? ==>
              && |locs| == |r.value.txs|
              && forall i :: 0 <= i < |locs| ==>
                   locs[i] == TxLoc(TxOffset(r.value, i), SerializeSize(r.value.txs[i]))
  {
    hide ParseMany, SizeMany, ParseVarInt, DecodeTx, SerializeSize, VarIntSize, InProgress;
    locs := [];
    var fullLen := |rd.rest|;
    var header := rd.ReadFull(HEADER_SIZE);
    if header.Err? {
      return Err(header.error), [];
    }
    ghost var atCount := rd.rest;
    var count := ReadVarInt(rd);
    if count.Err? {
      return Err(count.error), [];
    }
    if count.value > MAX_TX_PER_BLOCK {
      return Err(TooManyTransactions), [];
    }
    CountLength(atCount);
    var txs: seq<Tx> := [];
    ghost var n := count.value;
    ghost var total := ParseMany(TxsCodec(), rd.rest, n, 0);
    ManyStart(TxsCodec(), rd.rest, n, 0);
    SizeNothing();
    for i := 0 to count.value
      invariant |txs| == |locs| == i
      invariant InProgress(TxsCodec(), total, txs, rd.rest, n - i, 0)
      invariant fullLen - |rd.rest| == HEADER_SIZE + VarIntSize(n) + SizeMany(TxsCodec(), txs)
      invariant forall k :: 0 <= k < i ==>
                  locs[k] == TxLoc(HEADER_SIZE + VarIntSize(n) + SizeMany(TxsCodec(), txs[..k]),
                                   SerializeSize(txs[k]))
    {
      var start := fullLen - |rd.rest|;
      ghost var bytes := rd.rest;
      var tx := BtcDecode(rd, WitnessEncoding, slab);
      if tx.Err? {
        ManyStop(TxsCodec(), total, txs, bytes, n - i, 0);
        return Err(tx.error), [];
      }
      ManyAdvance(TxsCodec(), total, txs, bytes, n - i, 0, tx.value, rd.rest);
      TxLength(bytes);
      SizeSnoc(TxsCodec(), txs, tx.value);
      ghost var before := txs;
      txs := txs + [tx.value];
      locs := locs + [TxLoc(start, fullLen - |rd.rest| - start)];
      assert forall k :: 0 <= k <= i ==> txs[..k] == before[..k];
      assert before[..i] == before;
    }
    ManyFinish(TxsCodec(), total, txs, rd.rest, 0);
    r := Ok(Block(header.value, txs));
  }

  lemma CountLength(bs: seq<Byte>)
    requires ParseVarInt(bs).Ok?
    ensures |bs| == VarIntSize(ParseVarInt(bs).value.0) + |ParseVarInt(bs).value.1|
  {
    hide ParseVarInt;
    VarIntSound(bs);
    VarIntComplete(ParseVarInt(bs).value.0, []);
  }

  lemma TxLength(bs: seq<Byte>)
    requires DecodeTx(bs, WitnessEncoding).Ok?
    ensures |bs| == SerializeSize(DecodeTx(bs, WitnessEncoding).value.0)
                    + |DecodeTx(bs, WitnessEncoding).value.1|
  {
    hide DecodeTx, EncodeTx, SerializeSize, WithinLimits;
    DecodeSound(bs, WitnessEncoding);
    SerializeSizeExact(DecodeTx(bs, WitnessEncoding).value.0);
  }

  lemma SizeNothing()
    ensures SizeMany(TxsCodec(), []) == 0
  {
  }
}
