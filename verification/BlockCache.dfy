/**
 Blocks and transactions with memoised hashes. A transaction taken from a serialized block
 keeps its slice of the block's bytes and hashes that slice, with the witness cut out,
 instead of serializing the decoded transaction again.
 */
module BlockCache {
  import opened Wrappers
  import opened Bytes
  import opened Codecs
  import opened TxCodec
  import opened BlockCodec

  type Digest = seq<Byte>

  /** The hash over the base serialization: the transaction id. */
  function TxId(hash: seq<Byte> -> Digest, tx: Tx): Digest {
    hash(EncodeBase(tx))
  }

  /** The hash over the serialization with witnesses, if there are any. */
  function WitnessTxId(hash: seq<Byte> -> Digest, tx: Tx): Digest {
    if HasWitness(tx) then hash(EncodeTx(tx, WitnessEncoding)) else TxId(hash, tx)
  }

  class WrappedTx {
    const hash: seq<Byte> -> Digest
    const msgTx: Tx
    var txHash: Option<Digest>
    var txHashWitness: Option<Digest>
    var txHasWitness: Option<bool>
    var txIndex: int
    var rawBytes: Option<seq<Byte>>

    /** The cached values are the right ones, and the raw bytes are this transaction's. */
    ghost predicate Valid()
      reads this
    {
      && (txHash.Some? ==> txHash.value == TxId(hash, msgTx))
      && (txHashWitness.Some? ==> txHashWitness.value == WitnessTxId(hash, msgTx))
      && (txHasWitness.Some? ==> txHasWitness.value == TxCodec.HasWitness(msgTx))
      && (rawBytes.Some? ==> WithinLimits(msgTx) && rawBytes.value == EncodeTx(msgTx, WitnessEncoding))
    }

    constructor (hash: seq<Byte> -> Digest, msgTx: Tx)
      ensures this.hash == hash && this.msgTx == msgTx && rawBytes == None && txIndex == -1
      ensures txHash == None && txHashWitness == None && txHasWitness == None
      ensures Valid()
    {
      this.hash := hash;
      this.msgTx := msgTx;
      txHash, txHashWitness, txHasWitness, rawBytes := None, None, None, None;
      txIndex := -1;
    }

    /** A new wrapper for entry `i` of `b`, carrying its slice of the block's `bytes`. */
    ghost predicate IsEntry(hash: seq<Byte> -> Digest, b: Block, bytes: seq<Byte>, wrapped: seq<bool>, i: nat)
      requires i < |b.txs| == |wrapped|
      reads this
    {
      && this.hash == hash && msgTx == b.txs[i] && txIndex == i
      && txHash == None && txHashWitness == None && txHasWitness == None
      && (if bytes == [] then rawBytes == None
          else
            && SliceOffset(b, wrapped, i) + SerializeSize(b.txs[i]) <= |bytes|
            && rawBytes == Some(RawSlice(b, bytes, wrapped, i)))
    }

    method HasWitness() returns (has: bool)
      requires Valid()
      modifies this`txHasWitness
      ensures Valid() && has == TxCodec.HasWitness(msgTx) && txHasWitness == Some(has)
    {
      if txHasWitness.Some? {
        return txHasWitness.value;
      }
      has := TxCodec.HasWitness(msgTx);
      txHasWitness := Some(has);
    }

    /** The transaction id, computed from the raw bytes when they are there. */
    method Hash() returns (h: Digest)
      requires Valid()
      modifies this`txHash, this`txHasWitness
      ensures Valid() && h == TxId(hash, msgTx) && txHash == Some(h)
    {
      hide EncodeBase, EncodeMany, BaseSize, WithinLimits, AnyWitness;
      if txHash.Some? {
        return txHash.value;
      }
      if rawBytes.None? {
        h := hash(EncodeBase(msgTx));
        txHash := Some(h);
        return;
      }
      var raw := rawBytes.value;
      var has := HasWitness();
      if has {
        CutWitnessIsBase(msgTx);
        var baseSize := BaseSize(msgTx);
        var nonWitness := raw[..4];
        nonWitness := nonWitness + raw[6..6 + baseSize - 8];
        nonWitness := nonWitness + raw[|raw| - 4..];
        h := hash(nonWitness);
      } else {
        h := hash(raw);
      }
      txHash := Some(h);
    }

    method WitnessHash() returns (h: Digest)
      requires Valid()
      modifies this`txHashWitness
      ensures Valid() && h == WitnessTxId(hash, msgTx) && txHashWitness == Some(h)
    {
      if txHashWitness.Some? {
        return txHashWitness.value;
      }
      if rawBytes.Some? && |rawBytes.value| > 0 {
        h := hash(rawBytes.value);
      } else {
        h := WitnessTxId(hash, msgTx);
      }
      txHashWitness := Some(h);
    }
  }

  // ----- Where `Transactions` looks for the bytes of a transaction -----

  /** The sizes of the first `i` transactions that were not wrapped yet. */
  function FreshSizes(txs: seq<Tx>, wrapped: seq<bool>, i: nat): nat
    requires i <= |txs| == |wrapped|
  {
    if i == 0 then 0
    else FreshSizes(txs, wrapped, i - 1) + if wrapped[i - 1] then 0 else SerializeSize(txs[i - 1])
  }

  /** The offset `Transactions` uses for entry `i`: it advances only over unwrapped entries. */
  function SliceOffset(b: Block, wrapped: seq<bool>, i: nat): nat
    requires i <= |b.txs| == |wrapped|
  {
    HEADER_SIZE + VarIntSize(|b.txs|) + FreshSizes(b.txs, wrapped, i)
  }

  lemma SliceOffsetFirst(b: Block, wrapped: seq<bool>)
    requires |b.txs| == |wrapped|
    ensures SliceOffset(b, wrapped, 0) == HEADER_SIZE + VarIntSize(|b.txs|)
  {
  }

  lemma SliceOffsetNext(b: Block, wrapped: seq<bool>, i: nat)
    requires i < |b.txs| == |wrapped|
    ensures SliceOffset(b, wrapped, i + 1) ==
            SliceOffset(b, wrapped, i) + if wrapped[i] then 0 else SerializeSize(b.txs[i])
  {
  }

  lemma SizePositive(tx: Tx)
    ensures SerializeSize(tx) > 0
  {
  }

  lemma OffsetsBegin(b: Block, wrapped: seq<bool>)
    requires |b.txs| == |wrapped|
    ensures SliceOffset(b, wrapped, 0) == TxOffset(b, 0)
  {
    assert b.txs[..0] == [];
  }

  lemma {:induction false} SliceOffsetBound(b: Block, wrapped: seq<bool>, i: nat)
    requires i <= |b.txs| == |wrapped|
    ensures SliceOffset(b, wrapped, i) <= TxOffset(b, i)
    ensures SliceOffset(b, wrapped, i) == TxOffset(b, i)
       <==> forall j :: 0 <= j < i ==> !wrapped[j]
  {
    hide SerializeSize, VarIntSize, SizeMany, SliceOffset, TxOffset;
    if i == 0 {
      OffsetsBegin(b, wrapped);
    } else {
      SizePositive(b.txs[i - 1]);
      SliceOffsetBound(b, wrapped, i - 1);
      SliceOffsetNext(b, wrapped, i - 1);
      TxOffsetNext(b, i - 1);
    }
  }

  /** The slice of the serialized block handed to entry `i` when it is wrapped. */
  function RawSlice(b: Block, serialized: seq<Byte>, wrapped: seq<bool>, i: nat): seq<Byte>
    requires i < |b.txs| == |wrapped|
    requires SliceOffset(b, wrapped, i) + SerializeSize(b.txs[i]) <= |serialized|
  {
    serialized[SliceOffset(b, wrapped, i)..SliceOffset(b, wrapped, i) + SerializeSize(b.txs[i])]
  }

  lemma SliceInRange(b: Block, tail: seq<Byte>, wrapped: seq<bool>, i: nat)
    requires BlockOk(b) && i < |b.txs| == |wrapped|
    ensures SliceOffset(b, wrapped, i) + SerializeSize(b.txs[i]) <= |EncodeBlock(b) + tail|
  {
    hide SerializeSize, EncodeTx, EncodeBlock, BlockOk, VarIntSize, SizeMany;
    SliceOffsetBound(b, wrapped, i);
    TxSliceExact(b, i, tail);
  }

  /** With nothing wrapped before it, an entry gets exactly its own serialization. */
  lemma FreshSliceExact(b: Block, tail: seq<Byte>, wrapped: seq<bool>, i: nat)
    requires BlockOk(b) && i < |b.txs| == |wrapped|
    requires forall j :: 0 <= j < i ==> !wrapped[j]
    ensures SliceOffset(b, wrapped, i) + SerializeSize(b.txs[i]) <= |EncodeBlock(b) + tail|
    ensures RawSlice(b, EncodeBlock(b) + tail, wrapped, i) == EncodeTx(b.txs[i], WitnessEncoding)
  {
    hide SerializeSize, EncodeTx, EncodeBlock, BlockOk, VarIntSize, SizeMany;
    SliceOffsetBound(b, wrapped, i);
    TxSliceExact(b, i, tail);
  }

  /** The cached bytes of a block, if any, begin with its serialization. */
  predicate CachedBytesOk(b: Block, bs: seq<Byte>) {
    bs == [] || (BlockOk(b) && EncodeBlock(b) <= bs)
  }

  class WrappedBlock {
    const hash: seq<Byte> -> Digest
    const msgBlock: Block
    var serializedBlock: seq<Byte>
    var transactions: seq<WrappedTx?>
    var txnsGenerated: bool

    /** Every wrapped transaction belongs to its place in the block. */
    ghost predicate EntriesOk()
      reads this, set i | 0 <= i < |transactions| :: transactions[i]
    {
      && (transactions == [] || |transactions| == |msgBlock.txs|)
      && (forall i :: 0 <= i < |transactions| && transactions[i] != null ==>
            && transactions[i].msgTx == msgBlock.txs[i]
            && transactions[i].txIndex == i
            && transactions[i].hash == hash)
      && (txnsGenerated ==>
            |transactions| == |msgBlock.txs| && forall i :: 0 <= i < |transactions| ==> transactions[i] != null)
    }

    /** Which entries have been wrapped so far. */
    ghost function Wrapped(): (w: seq<bool>)
      reads this
      ensures |w| == |msgBlock.txs|
    {
      if |transactions| == |msgBlock.txs| then
        seq(|transactions|, i requires 0 <= i < |transactions| reads this => transactions[i] != null)
      else seq(|msgBlock.txs|, _ => false)
    }

    constructor (hash: seq<Byte> -> Digest, msgBlock: Block)
      ensures this.hash == hash && this.msgBlock == msgBlock
      ensures EntriesOk() && serializedBlock == [] && transactions == [] && !txnsGenerated
    {
      this.hash := hash;
      this.msgBlock := msgBlock;
      serializedBlock, transactions, txnsGenerated := [], [], false;
    }

    /** The block's bytes: the cached ones, trailing bytes and all, or a fresh serialization. */
    method Bytes() returns (bs: seq<Byte>)
      modifies this`serializedBlock
      ensures serializedBlock == bs
      ensures bs == if old(serializedBlock) != [] then old(serializedBlock) else EncodeBlock(msgBlock)
    {
      if |serializedBlock| != 0 {
        return serializedBlock;
      }
      bs := EncodeBlock(msgBlock);
      serializedBlock := bs;
    }

    /** The wrapped transaction at `txNum`, created on first use without raw bytes. */
    method Tx(txNum: int) returns (tx: WrappedTx?)
      requires EntriesOk()
      modifies this`transactions
      ensures EntriesOk()
      ensures tx == null <==> !(0 <= txNum < |msgBlock.txs|)
      ensures tx != null ==> |transactions| == |msgBlock.txs| && transactions[txNum] == tx
      ensures tx != null && old(Wrapped())[txNum] ==> transactions == old(transactions)
      ensures tx != null && !old(Wrapped())[txNum] ==> fresh(tx) && tx.rawBytes == None && tx.Valid()
      ensures tx != null ==> Wrapped() == old(Wrapped())[txNum := true]
    {
      if !(0 <= txNum < |msgBlock.txs|) {
        return null;
      }
      if |transactions| == 0 {
        transactions := seq(|msgBlock.txs|, _ => null);
      }
      if transactions[txNum] != null {
        return transactions[txNum];
      }
      tx := new WrappedTx(hash, msgBlock.txs[txNum]);
      tx.txIndex := txNum;
      transactions := transactions[txNum := tx];
    }

    /** A fresh wrapper for entry `i`, with the bytes at `offset` when there are any. */
    method Wrap(i: nat, offset: nat, ghost w: seq<bool>) returns (tx: WrappedTx)
      requires i < |msgBlock.txs| == |w|
      requires serializedBlock != [] ==>
                 && offset == SliceOffset(msgBlock, w, i)
                 && offset + SerializeSize(msgBlock.txs[i]) <= |serializedBlock|
      ensures fresh(tx) && tx.IsEntry(hash, msgBlock, serializedBlock, w, i)
    {
      tx := new WrappedTx(hash, msgBlock.txs[i]);
      tx.txIndex := i;
      if |serializedBlock| > 0 {
        tx.rawBytes := Some(serializedBlock[offset..offset + SerializeSize(msgBlock.txs[i])]);
      }
    }

    /** Wraps every transaction that is not wrapped yet, giving it its slice of the block's bytes. */
    method Transactions()
      requires EntriesOk() && CachedBytesOk(msgBlock, serializedBlock)
      modifies this`transactions, this`txnsGenerated
      ensures EntriesOk() && txnsGenerated
      ensures forall i :: 0 <= i < |msgBlock.txs| && old(Wrapped())[i] ==>
                old(|transactions|) == |msgBlock.txs| && transactions[i] == old(transactions)[i]
      ensures !old(txnsGenerated) ==>
                forall i :: 0 <= i < |msgBlock.txs| && !old(Wrapped())[i] ==>
                  && transactions[i] != null && fresh(transactions[i])
                  && transactions[i].IsEntry(hash, msgBlock, serializedBlock, old(Wrapped()), i)
    {
      if txnsGenerated {
        return;
      }
      ghost var w := Wrapped();
      if |transactions| == 0 {
        transactions := seq(|msgBlock.txs|, _ => null);
      }
      FillTransactions(w);
      txnsGenerated := true;
    }

    method FillTransactions(ghost w: seq<bool>)
      requires |transactions| == |msgBlock.txs| == |w| && !txnsGenerated
      requires forall i :: 0 <= i < |w| ==> (w[i] <==> transactions[i] != null)
      requires CachedBytesOk(msgBlock, serializedBlock)
      modifies this`transactions
      ensures |transactions| == |w|
      ensures forall i :: 0 <= i < |w| && w[i] ==> transactions[i] == old(transactions)[i]
      ensures forall i :: 0 <= i < |w| && !w[i] ==>
                && transactions[i] != null && fresh(transactions[i])
                && transactions[i].IsEntry(hash, msgBlock, serializedBlock, w, i)
    {
      hide BlockOk, EncodeBlock, CachedBytesOk, SerializeSize, VarIntSize, SliceOffset, WrappedTx.IsEntry;
      var offset: nat := HEADER_SIZE + VarIntSize(|msgBlock.txs|);
      SliceOffsetFirst(msgBlock, w);
      for i := 0 to |transactions|
        invariant |transactions| == |w|
        invariant serializedBlock != [] ==> offset == SliceOffset(msgBlock, w, i)
        invariant forall k :: i <= k < |w| ==> transactions[k] == old(transactions)[k]
        invariant forall k :: 0 <= k < i && w[k] ==> transactions[k] == old(transactions)[k]
        invariant forall k :: 0 <= k < i && !w[k] ==>
                    && transactions[k] != null && fresh(transactions[k])
                    && transactions[k].IsEntry(hash, msgBlock, serializedBlock, w, k)
      {
        SliceOffsetNext(msgBlock, w, i);
        if transactions[i] == null {
          InRange(i, w);
          var newTx := Wrap(i, offset, w);
          if |serializedBlock| > 0 {
            offset := offset + SerializeSize(msgBlock.txs[i]);
          }
          transactions := transactions[i := newTx];
        }
      }
    }

    lemma InRange(i: nat, w: seq<bool>)
      requires i < |msgBlock.txs| == |w| && CachedBytesOk(msgBlock, serializedBlock)
      ensures serializedBlock != [] ==>
                SliceOffset(msgBlock, w, i) + SerializeSize(msgBlock.txs[i]) <= |serializedBlock|
    {
      hide BlockOk, EncodeBlock, SerializeSize, SliceOffset;
      if serializedBlock != [] {
        var tail := serializedBlock[|EncodeBlock(msgBlock)|..];
        assert serializedBlock == EncodeBlock(msgBlock) + tail;
        SliceInRange(msgBlock, tail, w, i);
      }
    }
  }

  /** A block from its bytes: every transaction in it hashes to its own identifiers. */
  method NewBlockFromBytes(hash: seq<Byte> -> Digest, bs: seq<Byte>) returns (r: Decoding<WrappedBlock>)
    ensures r.Ok? == DecodeBlock(bs).Ok?
    ensures r.Err? ==> r.error == DecodeBlock(bs).error
    ensures r.Ok? ==>
              && fresh(r.value)
              && r.value.hash == hash
              && r.value.msgBlock == DecodeBlock(bs).value.0
              && r.value.serializedBlock == bs
              && r.value.EntriesOk() && r.value.txnsGenerated
    ensures r.Ok? ==>
              forall i :: 0 <= i < |r.value.msgBlock.txs| ==>
                && r.value.transactions[i].Valid()
                && r.value.transactions[i].rawBytes == Some(EncodeTx(r.value.msgBlock.txs[i], WitnessEncoding))
  {
    var decoded := DecodeBlock(bs);
    if decoded.Err? {
      return Err(decoded.error);
    }
    BlockSound(bs);
    var b := new WrappedBlock(hash, decoded.value.0);
    b.serializedBlock := bs;
    EncodedNonEmpty(b.msgBlock);
    assert bs == EncodeBlock(b.msgBlock) + decoded.value.1;
    ghost var w := b.Wrapped();
    b.Transactions();
    forall i | 0 <= i < |b.msgBlock.txs|
      ensures b.transactions[i].rawBytes == Some(EncodeTx(b.msgBlock.txs[i], WitnessEncoding))
      ensures b.transactions[i].Valid()
    {
      assert b.transactions[i].IsEntry(hash, b.msgBlock, bs, w, i);
      FreshSliceExact(b.msgBlock, decoded.value.1, w, i);
    }
    r := Ok(b);
  }

  lemma EncodedNonEmpty(b: Block)
    ensures |EncodeBlock(b)| >= HEADER_SIZE
  {
  }

  /** The cached bytes are the block's serialization exactly when nothing follows the block. */
  lemma CachedBytesExact(bs: seq<Byte>)
    requires DecodeBlock(bs).Ok?
    ensures bs == EncodeBlock(DecodeBlock(bs).value.0) <==> DecodeBlock(bs).value.1 == []
  {
    BlockSound(bs);
  }

  /**
   A transaction wrapped through `Tx` before the block's bytes were cached is passed over
   without moving the offset, so the next one is handed the bytes of the first.
   */
  lemma SkippedEntryShiftsSlice(b: Block, tail: seq<Byte>)
    requires BlockOk(b) && |b.txs| == 2 && SerializeSize(b.txs[0]) == SerializeSize(b.txs[1])
    ensures SliceOffset(b, [true, false], 1) + SerializeSize(b.txs[1]) <= |EncodeBlock(b) + tail|
    ensures RawSlice(b, EncodeBlock(b) + tail, [true, false], 1) == EncodeTx(b.txs[0], WitnessEncoding)
  {
    hide SerializeSize, EncodeTx, EncodeBlock, BlockOk, VarIntSize, SizeMany;
    var w := [true, false];
    SliceInRange(b, tail, w, 1);
    assert FreshSizes(b.txs, w, 1) == FreshSizes(b.txs, w, 0) == 0;
    SliceOffsetBound(b, w, 0);
    TxSliceExact(b, 0, tail);
  }

  function SmallIn(): TxIn {
    TxIn(OutPoint(seq(32, _ => 0), 0), [], 0, [])
  }

  /** Two different transactions of the same size. */
  function TwoTxs(): Block {
    Block(seq(80, _ => 0), [Tx(1, [SmallIn()], [], 0), Tx(1, [SmallIn()], [], 1)])
  }

  /** So of two different transactions of the same size the second gets the bytes of the first. */
  lemma SkippedEntryExample()
    ensures BlockOk(TwoTxs())
    ensures SliceOffset(TwoTxs(), [true, false], 1) + SerializeSize(TwoTxs().txs[1]) <= |EncodeBlock(TwoTxs())|
    ensures RawSlice(TwoTxs(), EncodeBlock(TwoTxs()), [true, false], 1) == EncodeTx(TwoTxs().txs[0], WitnessEncoding)
    ensures EncodeTx(TwoTxs().txs[0], WitnessEncoding) != EncodeTx(TwoTxs().txs[1], WitnessEncoding)
  {
    var b, ti := TwoTxs(), SmallIn();
    SmallTx(ti, 0);
    SmallTx(ti, 1);
    assert EncodeBlock(b) + [] == EncodeBlock(b);
    SkippedEntryShiftsSlice(b, []);
    DecodeComplete(b.txs[0], WitnessEncoding, []);
    DecodeComplete(b.txs[1], WitnessEncoding, []);
  }

  /** The run itself: one transaction is asked for, then the block's bytes, then all transactions. */
  method SkippedEntryRun(hash: seq<Byte> -> Digest) returns (first: WrappedTx?, second: WrappedTx?)
    ensures first != null && first.msgTx == TwoTxs().txs[0] && first.rawBytes == None
    ensures second != null && second.msgTx == TwoTxs().txs[1]
    ensures second.rawBytes == Some(EncodeTx(TwoTxs().txs[0], WitnessEncoding)) && !second.Valid()
  {
    hide BlockOk, EncodeBlock, EncodeTx, SerializeSize, TwoTxs, SliceOffset, WithinLimits;
    SkippedEntryExample();
    ghost var txs := TwoCount();
    var b := new WrappedBlock(hash, TwoTxs());
    ghost var none := b.Wrapped();
    assert none == [false, false];
    first := b.Tx(0);
    assert !b.Wrapped()[1];
    assert b.transactions[0] != null && b.transactions[1] == null;
    var _ := b.Bytes();
    ghost var wrapped := b.Wrapped();
    assert wrapped[0] && !wrapped[1];
    assert wrapped == [true, false];
    EncodedNonEmpty(TwoTxs());
    b.Transactions();
    second := b.transactions[1];
    assert second.IsEntry(hash, b.msgBlock, b.serializedBlock, wrapped, 1);
  }

  lemma TwoCount() returns (txs: seq<Tx>)
    ensures txs == TwoTxs().txs && |txs| == 2
  {
    txs := TwoTxs().txs;
  }

  lemma SmallTx(ti: TxIn, lockTime: U32)
    requires ti.script == [] && ti.wit == []
    ensures var tx := Tx(1, [ti], [], lockTime);
            WithinLimits(tx) && SerializeSize(tx) == 51
  {
    var bare := BareIn(ti.prev, [], ti.sequence);
    assert Bare([ti]) == [bare] && Stacks([ti]) == [[]];
    Singleton(InCodec(), bare);
    Singleton(StackCodec(), []);
  }

  lemma Singleton<T>(c: Codec<T>, v: T)
    ensures CostMany(c, [v]) == c.cost(v) && SizeMany(c, [v]) == c.size(v)
  {
    assert [v][1..] == [];
  }
}
