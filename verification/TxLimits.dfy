/** The sizes a transaction or a block may have to be decoded again, in plain numbers. */
module TxLimits {
  import opened Bytes
  import opened Codecs
  import opened TxCodec
  import opened BlockCodec

  function Lengths(items: Stack): nat {
    if items == [] then 0 else |items[0]| + Lengths(items[1..])
  }

  /** The bytes of all the signature scripts and witness items. */
  function InputBytes(ins: seq<TxIn>): nat {
    if ins == [] then 0 else |ins[0].script| + Lengths(ins[0].wit) + InputBytes(ins[1..])
  }

  function OutputBytes(outs: seq<TxOut>): nat {
    if outs == [] then 0 else |outs[0].script| + OutputBytes(outs[1..])
  }

  predicate ShortStack(items: Stack) {
    |items| <= 4_000_000 && forall i :: 0 <= i < |items| ==> |items[i]| <= 4_000_000
  }

  lemma {:induction false} StackCost(items: Stack)
    ensures CostMany(ScriptCodec(), items) == Lengths(items)
  {
    if items != [] {
      StackCost(items[1..]);
    }
  }

  lemma {:induction false} OutputCost(outs: seq<TxOut>)
    ensures CostMany(OutCodec(), outs) == OutputBytes(outs)
  {
    if outs != [] {
      OutputCost(outs[1..]);
    }
  }

  lemma {:induction false} InputCost(ins: seq<TxIn>)
    ensures CostMany(InCodec(), Bare(ins)) + CostMany(StackCodec(), Stacks(ins)) == InputBytes(ins)
  {
    if ins != [] {
      InputCost(ins[1..]);
      StackCost(ins[0].wit);
      assert Bare(ins)[1..] == Bare(ins[1..]) && Stacks(ins)[1..] == Stacks(ins[1..]);
    }
  }

  /** Fits in the decoder: the counts, every script and witness item, and all of them together. */
  predicate Fits(tx: Tx) {
    && |tx.ins| <= 818_401 && |tx.outs| <= 3_728_271
    && (forall i :: 0 <= i < |tx.ins| ==> |tx.ins[i].script| <= 4_000_000 && ShortStack(tx.ins[i].wit))
    && (forall i :: 0 <= i < |tx.outs| ==> |tx.outs[i].script| <= 4_000_000)
    && InputBytes(tx.ins) + OutputBytes(tx.outs) <= 4_194_304
  }

  lemma LimitsExact(tx: Tx)
    ensures WithinLimits(tx) <==> Fits(tx)
  {
    hide CostMany;
    InputCost(tx.ins);
    OutputCost(tx.outs);
    ScriptsFit(tx.ins);
    assert AllOk(OutCodec(), tx.outs) <==> forall i :: 0 <= i < |tx.outs| ==> |tx.outs[i].script| <= 4_000_000;
  }

  lemma ScriptsFit(ins: seq<TxIn>)
    ensures AllOk(InCodec(), Bare(ins)) && AllOk(StackCodec(), Stacks(ins)) <==>
            forall i :: 0 <= i < |ins| ==> |ins[i].script| <= 4_000_000 && ShortStack(ins[i].wit)
  {
    hide CostMany;
    var bare, stacks := Bare(ins), Stacks(ins);
    forall i | 0 <= i < |ins|
      ensures InCodec().ok(bare[i]) <==> |ins[i].script| <= 4_000_000
      ensures StackCodec().ok(stacks[i]) <==> ShortStack(ins[i].wit)
    {
      StackFits(ins[i].wit);
    }
    if forall i :: 0 <= i < |ins| ==> |ins[i].script| <= 4_000_000 && ShortStack(ins[i].wit) {
      assert AllOk(InCodec(), bare) && AllOk(StackCodec(), stacks);
    }
    if AllOk(InCodec(), bare) && AllOk(StackCodec(), stacks) {
      forall i | 0 <= i < |ins|
        ensures |ins[i].script| <= 4_000_000 && ShortStack(ins[i].wit)
      {
        assert InCodec().ok(bare[i]) && StackCodec().ok(stacks[i]);
      }
    }
  }

  lemma StackFits(items: Stack)
    ensures StackOk(items) <==> ShortStack(items)
  {
  }

  /** A block fits when its transactions are not too many and each of them fits and has an input. */
  lemma BlockLimitsExact(b: Block)
    ensures BlockOk(b) <==>
            |b.txs| <= 400_001 && forall i :: 0 <= i < |b.txs| ==> Fits(b.txs[i]) && Expressible(b.txs[i], WitnessEncoding)
  {
    hide WithinLimits, Fits;
    forall i | 0 <= i < |b.txs|
      ensures WithinLimits(b.txs[i]) <==> Fits(b.txs[i])
    {
      LimitsExact(b.txs[i]);
    }
  }
}
