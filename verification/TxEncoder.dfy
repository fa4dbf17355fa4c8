/** The encoder and the size counters as they run, proved against the functions of `TxCodec`. */
module TxEncoder {
  import opened Wrappers
  import opened Bytes
  import opened Codecs
  import opened TxCodec

  class Writer {
    var out: seq<Byte>

    constructor ()
      ensures out == []
    {
      out := [];
    }

    method Write(bs: seq<Byte>)
      modifies this
      ensures out == old(out) + bs
    {
      out := out + bs;
    }
  }

  lemma {:induction false} EncodeSnoc<T>(c: Codec<T>, vs: seq<T>, v: T)
    ensures EncodeMany(c, vs + [v]) == EncodeMany(c, vs) + c.enc(v)
  {
    if vs == [] {
      assert vs + [v] == [v] && [v][1..] == [];
    } else {
      assert (vs + [v])[1..] == vs[1..] + [v];
      EncodeSnoc(c, vs[1..], v);
      Flatten3(c.enc(vs[0]), EncodeMany(c, vs[1..]), c.enc(v));
    }
  }

  /** One more element of a list, written after the ones before it. */
  lemma EncodePrefix<T>(c: Codec<T>, vs: seq<T>, i: nat)
    requires i < |vs|
    ensures EncodeMany(c, vs[..i + 1]) == EncodeMany(c, vs[..i]) + c.enc(vs[i])
  {
    assert vs[..i + 1] == vs[..i] + [vs[i]];
    EncodeSnoc(c, vs[..i], vs[i]);
  }

  method WriteVarInt(w: Writer, n: nat)
    modifies w
    ensures w.out == old(w.out) + EncodeVarInt(n)
  {
    hide LittleEndian;
    if n < 0xfd {
      w.Write([n]);
    } else if n <= 0xffff {
      w.Write([0xfd] + LittleEndian(n, 2));
    } else if n <= 0xffff_ffff {
      w.Write([0xfe] + LittleEndian(n, 4));
    } else {
      w.Write([0xff]);
      w.Write(LittleEndian(n, 8));
      Flatten3(old(w.out), [0xff], LittleEndian(n, 8));
    }
  }

  method WriteVarBytes(w: Writer, bs: seq<Byte>)
    modifies w
    ensures w.out == old(w.out) + EncodeScript(bs)
  {
    hide EncodeVarInt;
    WriteVarInt(w, |bs|);
    w.Write(bs);
  }

  method WriteTxIn(w: Writer, ti: TxIn)
    modifies w
    ensures w.out == old(w.out) + EncodeIn(BareIn(ti.prev, ti.script, ti.sequence))
  {
    hide EncodeScript, LittleEndian;
    w.Write(ti.prev.hash);
    w.Write(LittleEndian(ti.prev.index, 4));
    WriteVarBytes(w, ti.script);
    w.Write(LittleEndian(ti.sequence, 4));
  }

  method WriteTxOut(w: Writer, to: TxOut)
    modifies w
    ensures w.out == old(w.out) + EncodeOut(to)
  {
    hide EncodeScript, LittleEndian;
    w.Write(LittleEndian(ToUint64(to.value), 8));
    WriteVarBytes(w, to.script);
  }

  method WriteWitness(w: Writer, wit: Stack)
    modifies w
    ensures w.out == old(w.out) + EncodeStack(wit)
  {
    hide EncodeMany, EncodeScript, EncodeVarInt;
    WriteVarInt(w, |wit|);
    ghost var start := w.out;
    EncodeNone(ScriptCodec());
    assert wit[..0] == [];
    for j := 0 to |wit|
      invariant w.out == start + EncodeMany(ScriptCodec(), wit[..j])
    {
      WriteVarBytes(w, wit[j]);
      EncodePrefix(ScriptCodec(), wit, j);
      Flatten3(start, EncodeMany(ScriptCodec(), wit[..j]), EncodeScript(wit[j]));
    }
    assert wit[..|wit|] == wit;
  }

  lemma EncodeNone<T>(c: Codec<T>)
    ensures EncodeMany(c, []) == []
  {
  }

  method WriteIns(w: Writer, ins: seq<TxIn>)
    modifies w
    ensures w.out == old(w.out) + EncodeMany(InCodec(), Bare(ins))
  {
    hide EncodeMany, EncodeIn;
    EncodeNone(InCodec());
    ghost var bare := Bare(ins);
    assert bare[..0] == [];
    for i := 0 to |ins|
      invariant w.out == old(w.out) + EncodeMany(InCodec(), bare[..i])
    {
      WriteTxIn(w, ins[i]);
      EncodePrefix(InCodec(), bare, i);
      Flatten3(old(w.out), EncodeMany(InCodec(), bare[..i]), EncodeIn(bare[i]));
    }
    assert bare[..|ins|] == bare;
  }

  method WriteOuts(w: Writer, outs: seq<TxOut>)
    modifies w
    ensures w.out == old(w.out) + EncodeMany(OutCodec(), outs)
  {
    hide EncodeMany, EncodeOut;
    EncodeNone(OutCodec());
    assert outs[..0] == [];
    for i := 0 to |outs|
      invariant w.out == old(w.out) + EncodeMany(OutCodec(), outs[..i])
    {
      WriteTxOut(w, outs[i]);
      EncodePrefix(OutCodec(), outs, i);
      Flatten3(old(w.out), EncodeMany(OutCodec(), outs[..i]), EncodeOut(outs[i]));
    }
    assert outs[..|outs|] == outs;
  }

  method WriteStacks(w: Writer, ins: seq<TxIn>)
    modifies w
    ensures w.out == old(w.out) + EncodeMany(StackCodec(), Stacks(ins))
  {
    hide EncodeMany, EncodeStack;
    EncodeNone(StackCodec());
    ghost var wits := Stacks(ins);
    assert wits[..0] == [];
    for i := 0 to |ins|
      invariant w.out == old(w.out) + EncodeMany(StackCodec(), wits[..i])
    {
      WriteWitness(w, ins[i].wit);
      EncodePrefix(StackCodec(), wits, i);
      Flatten3(old(w.out), EncodeMany(StackCodec(), wits[..i]), EncodeStack(wits[i]));
    }
    assert wits[..|ins|] == wits;
  }

  /** Whether some input carries witness data: the scan stops at the first that does. */
  method ScanWitness(tx: Tx) returns (has: bool)
    ensures has == HasWitness(tx)
  {
    for i := 0 to |tx.ins|
      invariant forall k :: 0 <= k < i ==> tx.ins[k].wit == []
    {
      if |tx.ins[i].wit| != 0 {
        assert Stacks(tx.ins)[i] != [];
        return true;
      }
    }
    return false;
  }

  /** The encoder appends exactly `EncodeTx`. */
  method BtcEncode(w: Writer, tx: Tx, enc: Encoding)
    modifies w
    ensures w.out == old(w.out) + EncodeTx(tx, enc)
  {
    hide EncodeMany, EncodeVarInt, LittleEndian, AnyWitness, InCodec, OutCodec, StackCodec;
    w.Write(LittleEndian(ToUint32(tx.version), 4));
    var has := ScanWitness(tx);
    var doWitness := enc.WitnessEncoding? && has;
    if doWitness {
      w.Write([0x00, 0x01]);
    }
    ghost var start := w.out;
    WriteVarInt(w, |tx.ins|);
    WriteIns(w, tx.ins);
    WriteVarInt(w, |tx.outs|);
    WriteOuts(w, tx.outs);
    ghost var body := EncodeVarInt(|tx.ins|) + EncodeBody(Bare(tx.ins), tx.outs);
    assert w.out == start + body;
    if doWitness {
      WriteStacks(w, tx.ins);
    }
    w.Write(LittleEndian(tx.lockTime, 4));
  }

  // ----- Size counters -----

  lemma SizePrefix<T>(c: Codec<T>, vs: seq<T>, i: nat)
    requires i < |vs|
    ensures SizeMany(c, vs[..i + 1]) == SizeMany(c, vs[..i]) + c.size(vs[i])
  {
    assert vs[..i + 1] == vs[..i] + [vs[i]];
    SizeSnoc(c, vs[..i], vs[i]);
  }

  method CountBase(tx: Tx) returns (n: nat)
    ensures n == BaseSize(tx)
  {
    hide SizeMany, VarIntSize;
    n := 8 + VarIntSize(|tx.ins|) + VarIntSize(|tx.outs|);
    ghost var bare, base := Bare(tx.ins), n;
    assert bare[..0] == [] && tx.outs[..0] == [];
    SizeNone(InCodec());
    SizeNone(OutCodec());
    for i := 0 to |tx.ins|
      invariant n == base + SizeMany(InCodec(), bare[..i])
    {
      SizePrefix(InCodec(), bare, i);
      n := n + (40 + VarIntSize(|tx.ins[i].script|) + |tx.ins[i].script|);
    }
    assert bare[..|bare|] == bare;
    for i := 0 to |tx.outs|
      invariant n == base + SizeMany(InCodec(), bare) + SizeMany(OutCodec(), tx.outs[..i])
    {
      SizePrefix(OutCodec(), tx.outs, i);
      n := n + (8 + VarIntSize(|tx.outs[i].script|) + |tx.outs[i].script|);
    }
    assert tx.outs[..|tx.outs|] == tx.outs;
  }

  lemma SizeNone<T>(c: Codec<T>)
    ensures SizeMany(c, []) == 0
  {
  }

  method CountStack(wit: Stack) returns (n: nat)
    ensures n == StackSize(wit)
  {
    hide SizeMany, VarIntSize;
    n := VarIntSize(|wit|);
    SizeNone(ScriptCodec());
    assert wit[..0] == [];
    for j := 0 to |wit|
      invariant n == VarIntSize(|wit|) + SizeMany(ScriptCodec(), wit[..j])
    {
      SizePrefix(ScriptCodec(), wit, j);
      n := n + VarIntSize(|wit[j]|);
      n := n + |wit[j]|;
    }
    assert wit[..|wit|] == wit;
  }

  method CountTx(tx: Tx) returns (n: nat)
    ensures n == SerializeSize(tx)
  {
    hide SizeMany, BaseSize, AnyWitness, StackSize;
    n := CountBase(tx);
    var has := ScanWitness(tx);
    if has {
      n := n + 2;
      ghost var wits := Stacks(tx.ins);
      assert wits[..0] == [];
      SizeNone(StackCodec());
      for i := 0 to |tx.ins|
        invariant n == BaseSize(tx) + 2 + SizeMany(StackCodec(), wits[..i])
      {
        SizePrefix(StackCodec(), wits, i);
        var k := CountStack(tx.ins[i].wit);
        n := n + k;
      }
      assert wits[..|wits|] == wits;
    }
  }
}
