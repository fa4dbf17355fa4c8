/**
 The transaction decoder as it runs: a reader that is consumed, one slab into which every
 script is read, and a final copy that packs the scripts into one contiguous buffer. It is
 proved to return what `TxCodec.DecodeTx` says and to leave the reader where that says.
 */
module TxDecoder {
  import opened Wrappers
  import opened Bytes
  import opened Codecs
  import opened TxCodec

  class Reader {
    var rest: seq<Byte>

    constructor (bs: seq<Byte>)
      ensures rest == bs
    {
      rest := bs;
    }

    /** Reads exactly `n` bytes; a short stream is consumed and reported. */
    method ReadFull(n: nat) returns (r: Decoding<seq<Byte>>)
      modifies this
      ensures Follows(r, rest, Take(old(rest), n))
      ensures r.Err? ==> rest == []
    {
      if |rest| < n {
        rest := [];
        return Err(ShortRead);
      }
      r := Ok(rest[..n]);
      rest := rest[n..];
    }

    /** Reads exactly `n` bytes into the buffer at `off`. */
    method ReadInto(buf: array<Byte>, off: nat, n: nat) returns (r: Decoding<()>)
      requires off + n <= buf.Length
      modifies this, buf
      ensures r.Ok? == Take(old(rest), n).Ok?
      ensures r.Err? ==> r.error == ShortRead && rest == []
      ensures r.Ok? ==> buf[off..off + n] == old(rest)[..n] && rest == old(rest)[n..]
      ensures buf[..off] == old(buf[..off])
    {
      if |rest| < n {
        rest := [];
        return Err(ShortRead);
      }
      var src := rest[..n];
      forall i | 0 <= i < n {
        buf[off + i] := src[i];
      }
      rest := rest[n..];
      r := Ok(());
    }
  }

  /** A reader step did what the decoding function says: same value, same error, same bytes left. */
  ghost predicate Follows<T>(r: Decoding<T>, rest: seq<Byte>, spec: Parsed<T>) {
    match spec
    case Ok((v, left)) => r == Ok(v) && rest == left
    case Err(e) => r == Err(e)
  }

  method ReadVarInt(rd: Reader) returns (r: Decoding<nat>)
    modifies rd
    ensures Follows(r, rd.rest, ParseVarInt(old(rd.rest)))
  {
    hide FromLittleEndian;
    var d :- rd.ReadFull(1);
    if d[0] == 0xff {
      var b :- rd.ReadFull(8);
      if FromLittleEndian(b) < 0x1_0000_0000 {
        return Err(NonCanonicalVarInt);
      }
      return Ok(FromLittleEndian(b));
    } else if d[0] == 0xfe {
      var b :- rd.ReadFull(4);
      if FromLittleEndian(b) < 0x1_0000 {
        return Err(NonCanonicalVarInt);
      }
      return Ok(FromLittleEndian(b));
    } else if d[0] == 0xfd {
      var b :- rd.ReadFull(2);
      if FromLittleEndian(b) < 0xfd {
        return Err(NonCanonicalVarInt);
      }
      return Ok(FromLittleEndian(b));
    }
    return Ok(d[0]);
  }

  /** A piece of a buffer: where a script lives in the slab or in the packed copy. */
  datatype Slice = Slice(off: nat, len: nat) {
    predicate Within(n: nat) {
      off + len <= n
    }

    function View(buf: seq<Byte>): seq<Byte>
      requires Within(|buf|)
    {
      buf[off..off + len]
    }
  }

  /** Reads a script into the slab at `off`, the first free byte. */
  method ReadScript(rd: Reader, slab: array<Byte>, off: nat) returns (r: Decoding<Slice>)
    requires off <= slab.Length
    modifies rd, slab
    ensures slab[..off] == old(slab[..off])
    ensures var spec := ParseScript(old(rd.rest), slab.Length - off);
            match spec
            case Err(e) => r == Err(e)
            case Ok((s, left)) =>
              && rd.rest == left
              && |s| <= slab.Length - off
              && r == Ok(Slice(off, |s|))
              && slab[off..off + |s|] == s
  {
    hide ParseVarInt;
    var count :- ReadVarInt(rd);
    if count > MAX_SCRIPT {
      return Err(ScriptTooLong);
    }
    if count > slab.Length - off {
      return Err(SlabExhausted);
    }
    var _ :- rd.ReadInto(slab, off, count);
    r := Ok(Slice(off, count));
  }

  // ----- Inputs and outputs whose scripts are in the slab -----

  datatype SlabIn = SlabIn(prev: OutPoint, script: Slice, sequence: U32, wit: seq<Slice>)

  datatype SlabOut = SlabOut(value: I64, script: Slice)

  ghost predicate Shows(buf: seq<Byte>, s: Slice, bytes: seq<Byte>) {
    s.Within(|buf|) && s.View(buf) == bytes
  }

  ghost predicate ShowsIn(buf: seq<Byte>, si: SlabIn, ti: BareIn) {
    si.prev == ti.prev && si.sequence == ti.sequence && Shows(buf, si.script, ti.script)
  }

  ghost predicate ShowsIns(buf: seq<Byte>, ins: seq<SlabIn>, bare: seq<BareIn>) {
    |ins| == |bare| && forall i :: 0 <= i < |ins| ==> ShowsIn(buf, ins[i], bare[i])
  }

  ghost predicate ShowsOut(buf: seq<Byte>, so: SlabOut, to: TxOut) {
    so.value == to.value && Shows(buf, so.script, to.script)
  }

  ghost predicate ShowsOuts(buf: seq<Byte>, outs: seq<SlabOut>, tos: seq<TxOut>) {
    |outs| == |tos| && forall i :: 0 <= i < |outs| ==> ShowsOut(buf, outs[i], tos[i])
  }

  /** What a slice shows does not change when the buffer grows. */
  lemma ShowsGrows(buf: seq<Byte>, more: seq<Byte>, s: Slice, bytes: seq<Byte>)
    requires buf <= more && Shows(buf, s, bytes)
    ensures Shows(more, s, bytes)
  {
    assert more == buf + more[|buf|..];
  }

  lemma ShowsInsSnoc(buf: seq<Byte>, more: seq<Byte>, ins: seq<SlabIn>, bare: seq<BareIn>,
                     si: SlabIn, ti: BareIn)
    requires buf <= more && ShowsIns(buf, ins, bare) && ShowsIn(more, si, ti)
    ensures ShowsIns(more, ins + [si], bare + [ti])
  {
    forall i | 0 <= i < |ins| ensures ShowsIn(more, ins[i], bare[i]) {
      assert ShowsIn(buf, ins[i], bare[i]);
      ShowsGrows(buf, more, ins[i].script, bare[i].script);
    }
  }

  lemma ShowsOutsSnoc(buf: seq<Byte>, more: seq<Byte>, outs: seq<SlabOut>, tos: seq<TxOut>,
                      so: SlabOut, to: TxOut)
    requires buf <= more && ShowsOuts(buf, outs, tos) && ShowsOut(more, so, to)
    ensures ShowsOuts(more, outs + [so], tos + [to])
  {
    forall i | 0 <= i < |outs| ensures ShowsOut(more, outs[i], tos[i]) {
      assert ShowsOut(buf, outs[i], tos[i]);
      ShowsGrows(buf, more, outs[i].script, tos[i].script);
    }
  }

  method ReadIn(rd: Reader, slab: array<Byte>, off: nat) returns (r: Decoding<SlabIn>)
    requires off <= slab.Length
    modifies rd, slab
    ensures slab[..off] == old(slab[..off])
    ensures match ParseIn(old(rd.rest), slab.Length - off)
            case Err(e) => r == Err(e)
            case Ok((ti, left)) =>
              && rd.rest == left
              && r.Ok? && r.value.wit == []
              && off + |ti.script| <= slab.Length
              && ShowsIn(slab[..off + |ti.script|], r.value, ti)
  {
    hide ParseScript, FromLittleEndian, LittleEndian;
    var hash :- rd.ReadFull(32);
    var index :- rd.ReadFull(4);
    var script :- ReadScript(rd, slab, off);
    var sequence :- rd.ReadFull(4);
    r := Ok(SlabIn(OutPoint(hash, Uint32(index)), script, Uint32(sequence), []));
    assert slab[..off + script.len][off..] == slab[off..off + script.len];
  }

  method ReadOut(rd: Reader, slab: array<Byte>, off: nat) returns (r: Decoding<SlabOut>)
    requires off <= slab.Length
    modifies rd, slab
    ensures slab[..off] == old(slab[..off])
    ensures match ParseOut(old(rd.rest), slab.Length - off)
            case Err(e) => r == Err(e)
            case Ok((to, left)) =>
              && rd.rest == left
              && r.Ok?
              && off + |to.script| <= slab.Length
              && ShowsOut(slab[..off + |to.script|], r.value, to)
  {
    hide ParseScript, FromLittleEndian, LittleEndian;
    var value :- rd.ReadFull(8);
    var script :- ReadScript(rd, slab, off);
    r := Ok(SlabOut(ToInt64(Uint64(value)), script));
    assert slab[..off + script.len][off..] == slab[off..off + script.len];
  }

  /** Reads `n` inputs, their scripts filling the slab from its start up to `off`. */
  method ReadIns(rd: Reader, slab: array<Byte>, n: nat) returns (r: Decoding<seq<SlabIn>>, off: nat)
    modifies rd, slab
    ensures match ParseMany(InCodec(), old(rd.rest), n, slab.Length)
            case Err(e) => r == Err(e)
            case Ok((bare, left)) =>
              && rd.rest == left
              && r.Ok?
              && off == CostMany(InCodec(), bare) <= slab.Length
              && ShowsIns(slab[..off], r.value, bare)
              && forall i :: 0 <= i < |r.value| ==> r.value[i].wit == []
  {
    hide ParseMany, CostMany, ParseIn, ShowsIns, ShowsIn, InProgress;
    var ins: seq<SlabIn> := [];
    off := 0;
    ghost var bare: seq<BareIn> := [];
    ghost var total := ParseMany(InCodec(), rd.rest, n, slab.Length);
    ManyStart(InCodec(), rd.rest, n, slab.Length);
    CostNone(InCodec());
    ShowsNothing(slab[..0]);
    for i := 0 to n
      invariant off == CostMany(InCodec(), bare) <= slab.Length
      invariant ShowsIns(slab[..off], ins, bare)
      invariant forall k :: 0 <= k < |ins| ==> ins[k].wit == []
      invariant InProgress(InCodec(), total, bare, rd.rest, n - i, slab.Length - off)
    {
      ghost var before, bytes := slab[..off], rd.rest;
      var ti := ReadIn(rd, slab, off);
      if ti.Err? {
        ManyStop(InCodec(), total, bare, bytes, n - i, slab.Length - off);
        return Err(ti.error), off;
      }
      ghost var v := ParseIn(bytes, slab.Length - off).value.0;
      assert ti.value.script.len == |v.script| by { ShowsInLength(slab[..off + |v.script|], ti.value, v); }
      ManyAdvance(InCodec(), total, bare, bytes, n - i, slab.Length - off, v, rd.rest);
      assert before == slab[..off] <= slab[..off + |v.script|];
      ShowsInsSnoc(before, slab[..off + |v.script|], ins, bare, ti.value, v);
      ins, bare := ins + [ti.value], bare + [v];
      off := off + ti.value.script.len;
    }
    ManyFinish(InCodec(), total, bare, rd.rest, slab.Length - off);
    r := Ok(ins);
  }

  lemma ShowsNothing(buf: seq<Byte>)
    ensures ShowsIns(buf, [], []) && ShowsOuts(buf, [], [])
  {
  }

  lemma ShowsInLength(buf: seq<Byte>, si: SlabIn, ti: BareIn)
    requires ShowsIn(buf, si, ti)
    ensures si.script.len == |ti.script|
  {
  }

  lemma ShowsOutLength(buf: seq<Byte>, so: SlabOut, to: TxOut)
    requires ShowsOut(buf, so, to)
    ensures so.script.len == |to.script|
  {
  }

  /** Reads `n` outputs, their scripts filling the slab from `start` up to `off`. */
  method ReadOuts(rd: Reader, slab: array<Byte>, n: nat, start: nat) returns (r: Decoding<seq<SlabOut>>, off: nat)
    requires start <= slab.Length
    modifies rd, slab
    ensures slab[..start] == old(slab[..start])
    ensures match ParseMany(OutCodec(), old(rd.rest), n, slab.Length - start)
            case Err(e) => r == Err(e)
            case Ok((tos, left)) =>
              && rd.rest == left
              && r.Ok?
              && off == start + CostMany(OutCodec(), tos) <= slab.Length
              && ShowsOuts(slab[..off], r.value, tos)
  {
    hide ParseMany, CostMany, ParseOut, ShowsOuts, ShowsOut, InProgress;
    var outs: seq<SlabOut> := [];
    off := start;
    ghost var tos: seq<TxOut> := [];
    ghost var total := ParseMany(OutCodec(), rd.rest, n, slab.Length - start);
    ManyStart(OutCodec(), rd.rest, n, slab.Length - start);
    CostNone(OutCodec());
    ShowsNothing(slab[..start]);
    for i := 0 to n
      invariant off == start + CostMany(OutCodec(), tos) <= slab.Length
      invariant slab[..start] == old(slab[..start])
      invariant ShowsOuts(slab[..off], outs, tos)
      invariant InProgress(OutCodec(), total, tos, rd.rest, n - i, slab.Length - off)
    {
      ghost var before, bytes := slab[..off], rd.rest;
      var to := ReadOut(rd, slab, off);
      assert slab[..start] == slab[..off][..start] == before[..start];
      if to.Err? {
        ManyStop(OutCodec(), total, tos, bytes, n - i, slab.Length - off);
        return Err(to.error), off;
      }
      ghost var v := ParseOut(bytes, slab.Length - off).value.0;
      assert to.value.script.len == |v.script| by { ShowsOutLength(slab[..off + |v.script|], to.value, v); }
      ManyAdvance(OutCodec(), total, tos, bytes, n - i, slab.Length - off, v, rd.rest);
      assert before == slab[..off] <= slab[..off + |v.script|];
      ShowsOutsSnoc(before, slab[..off + |v.script|], outs, tos, to.value, v);
      outs, tos := outs + [to.value], tos + [v];
      off := off + to.value.script.len;
    }
    ManyFinish(OutCodec(), total, tos, rd.rest, slab.Length - off);
    r := Ok(outs);
  }

  // ----- Witness stacks -----

  ghost predicate ShowsItems(buf: seq<Byte>, slices: seq<Slice>, items: Stack) {
    |slices| == |items| && forall i :: 0 <= i < |items| ==> Shows(buf, slices[i], items[i])
  }

  lemma ShowsItemsSnoc(buf: seq<Byte>, more: seq<Byte>, slices: seq<Slice>, items: Stack,
                       s: Slice, item: seq<Byte>)
    requires buf <= more && ShowsItems(buf, slices, items) && Shows(more, s, item)
    ensures ShowsItems(more, slices + [s], items + [item])
  {
    forall i | 0 <= i < |items| ensures Shows(more, slices[i], items[i]) {
      ShowsGrows(buf, more, slices[i], items[i]);
    }
  }

  lemma ShowsItemsGrows(buf: seq<Byte>, more: seq<Byte>, slices: seq<Slice>, items: Stack)
    requires buf <= more && ShowsItems(buf, slices, items)
    ensures ShowsItems(more, slices, items)
  {
    forall i | 0 <= i < |items| ensures Shows(more, slices[i], items[i]) {
      ShowsGrows(buf, more, slices[i], items[i]);
    }
  }

  method ReadItems(rd: Reader, slab: array<Byte>, n: nat, start: nat) returns (r: Decoding<seq<Slice>>, off: nat)
    requires start <= slab.Length
    modifies rd, slab
    ensures slab[..start] == old(slab[..start])
    ensures match ParseMany(ScriptCodec(), old(rd.rest), n, slab.Length - start)
            case Err(e) => r == Err(e)
            case Ok((items, left)) =>
              && rd.rest == left
              && r.Ok?
              && off == start + CostMany(ScriptCodec(), items) <= slab.Length
              && ShowsItems(slab[..off], r.value, items)
  {
    hide ParseMany, CostMany, ParseScript, ShowsItems, InProgress;
    var slices: seq<Slice> := [];
    off := start;
    ghost var items: Stack := [];
    ghost var total := ParseMany(ScriptCodec(), rd.rest, n, slab.Length - start);
    ManyStart(ScriptCodec(), rd.rest, n, slab.Length - start);
    CostNone(ScriptCodec());
    ShowsNoItems(slab[..start]);
    for i := 0 to n
      invariant off == start + CostMany(ScriptCodec(), items) <= slab.Length
      invariant slab[..start] == old(slab[..start])
      invariant ShowsItems(slab[..off], slices, items)
      invariant InProgress(ScriptCodec(), total, items, rd.rest, n - i, slab.Length - off)
    {
      ghost var before, bytes := slab[..off], rd.rest;
      var s := ReadScript(rd, slab, off);
      assert slab[..start] == slab[..off][..start] == before[..start];
      if s.Err? {
        ManyStop(ScriptCodec(), total, items, bytes, n - i, slab.Length - off);
        return Err(s.error), off;
      }
      ghost var v := ParseScript(bytes, slab.Length - off).value.0;
      ManyAdvance(ScriptCodec(), total, items, bytes, n - i, slab.Length - off, v, rd.rest);
      assert before == slab[..off] <= slab[..off + |v|];
      assert slab[..off + |v|][off..off + |v|] == slab[off..off + |v|];
      ShowsItemsSnoc(before, slab[..off + |v|], slices, items, s.value, v);
      slices, items := slices + [s.value], items + [v];
      off := off + s.value.len;
    }
    ManyFinish(ScriptCodec(), total, items, rd.rest, slab.Length - off);
    r := Ok(slices);
  }

  lemma ShowsNoItems(buf: seq<Byte>)
    ensures ShowsItems(buf, [], [])
  {
  }

  method ReadStack(rd: Reader, slab: array<Byte>, start: nat) returns (r: Decoding<seq<Slice>>, off: nat)
    requires start <= slab.Length
    modifies rd, slab
    ensures slab[..start] == old(slab[..start])
    ensures match ParseStack(old(rd.rest), slab.Length - start)
            case Err(e) => r == Err(e)
            case Ok((items, left)) =>
              && rd.rest == left
              && r.Ok?
              && off == start + CostMany(ScriptCodec(), items) <= slab.Length
              && ShowsItems(slab[..off], r.value, items)
  {
    hide ParseMany, CostMany, ShowsItems, ParseVarInt;
    var count := ReadVarInt(rd);
    if count.Err? {
      return Err(count.error), start;
    }
    if count.value > MAX_WITNESS_ITEMS {
      return Err(TooManyWitnessItems), start;
    }
    r, off := ReadItems(rd, slab, count.value, start);
  }

  ghost predicate ShowsStacks(buf: seq<Byte>, ins: seq<SlabIn>, wits: seq<Stack>) {
    |ins| == |wits| && forall i :: 0 <= i < |ins| ==> ShowsItems(buf, ins[i].wit, wits[i])
  }

  lemma ShowsStacksSnoc(buf: seq<Byte>, more: seq<Byte>, ins: seq<SlabIn>, wits: seq<Stack>,
                        si: SlabIn, wit: Stack)
    requires buf <= more && ShowsStacks(buf, ins, wits) && ShowsItems(more, si.wit, wit)
    ensures ShowsStacks(more, ins + [si], wits + [wit])
  {
    forall i | 0 <= i < |ins| ensures ShowsItems(more, ins[i].wit, wits[i]) {
      ShowsItemsGrows(buf, more, ins[i].wit, wits[i]);
    }
  }

  /** Reads one witness stack for each input. */
  method ReadStacks(rd: Reader, slab: array<Byte>, ins: seq<SlabIn>, start: nat)
    returns (r: Decoding<seq<SlabIn>>, off: nat)
    requires start <= slab.Length
    modifies rd, slab
    ensures slab[..start] == old(slab[..start])
    ensures match ParseMany(StackCodec(), old(rd.rest), |ins|, slab.Length - start)
            case Err(e) => r == Err(e)
            case Ok((wits, left)) =>
              && rd.rest == left
              && r.Ok? && |r.value| == |ins|
              && (forall i :: 0 <= i < |ins| ==> r.value[i] == ins[i].(wit := r.value[i].wit))
              && off == start + CostMany(StackCodec(), wits) <= slab.Length
              && ShowsStacks(slab[..off], r.value, wits)
  {
    hide ParseMany, CostMany, ParseStack, ShowsItems, ShowsStacks, InProgress;
    var done: seq<SlabIn> := [];
    off := start;
    ghost var wits: seq<Stack> := [];
    ghost var total := ParseMany(StackCodec(), rd.rest, |ins|, slab.Length - start);
    ManyStart(StackCodec(), rd.rest, |ins|, slab.Length - start);
    CostNone(StackCodec());
    ShowsNoStacks(slab[..start]);
    for i := 0 to |ins|
      invariant off == start + CostMany(StackCodec(), wits) <= slab.Length
      invariant slab[..start] == old(slab[..start])
      invariant |done| == i && forall k :: 0 <= k < i ==> done[k] == ins[k].(wit := done[k].wit)
      invariant ShowsStacks(slab[..off], done, wits)
      invariant InProgress(StackCodec(), total, wits, rd.rest, |ins| - i, slab.Length - off)
    {
      ghost var before, bytes := slab[..off], rd.rest;
      var wit, next := ReadStack(rd, slab, off);
      assert slab[..start] == slab[..off][..start] == before[..start];
      if wit.Err? {
        ManyStop(StackCodec(), total, wits, bytes, |ins| - i, slab.Length - off);
        return Err(wit.error), off;
      }
      ghost var v := ParseStack(bytes, slab.Length - off).value.0;
      ManyAdvance(StackCodec(), total, wits, bytes, |ins| - i, slab.Length - off, v, rd.rest);
      assert before == slab[..off] <= slab[..next];
      ShowsStacksSnoc(before, slab[..next], done, wits, ins[i].(wit := wit.value), v);
      done, wits := done + [ins[i].(wit := wit.value)], wits + [v];
      off := next;
    }
    ManyFinish(StackCodec(), total, wits, rd.rest, slab.Length - off);
    r := Ok(done);
  }

  lemma ShowsNoStacks(buf: seq<Byte>)
    ensures ShowsStacks(buf, [], [])
  {
  }

  // ----- Packing the scripts into one buffer, each input's witness next to its script -----

  method PackSlice(slab: array<Byte>, s: Slice, scripts: array<Byte>, offset: nat) returns (packed: Slice)
    requires slab != scripts && s.Within(slab.Length) && offset + s.len <= scripts.Length
    modifies scripts
    ensures packed == Slice(offset, s.len)
    ensures scripts[..offset] == old(scripts[..offset])
    ensures Shows(scripts[..offset + s.len], packed, slab[s.off..s.off + s.len])
  {
    forall i | 0 <= i < s.len {
      scripts[offset + i] := slab[s.off + i];
    }
    packed := Slice(offset, s.len);
    assert scripts[..offset + s.len][offset..offset + s.len] == slab[s.off..s.off + s.len];
  }

  method PackItems(slab: array<Byte>, slices: seq<Slice>, ghost items: Stack, scripts: array<Byte>, start: nat)
    returns (packed: seq<Slice>, offset: nat)
    requires slab != scripts && ShowsItems(slab[..], slices, items)
    requires start + CostMany(ScriptCodec(), items) <= scripts.Length
    modifies scripts
    ensures scripts[..start] == old(scripts[..start])
    ensures offset == start + CostMany(ScriptCodec(), items)
    ensures ShowsItems(scripts[..offset], packed, items)
  {
    hide CostMany, ScriptCodec, Shows;
    packed, offset := [], start;
    assert items[..0] == [];
    CostNone(ScriptCodec());
    for j := 0 to |slices|
      invariant offset == start + CostMany(ScriptCodec(), items[..j])
      invariant offset <= scripts.Length
      invariant scripts[..start] == old(scripts[..start])
      invariant ShowsItems(scripts[..offset], packed, items[..j])
    {
      ghost var before := scripts[..offset];
      assert items[..j + 1] == items[..j] + [items[j]];
      ItemCost(items, j);
      ShowsView(slab[..], slices[j], items[j]);
      var s := PackSlice(slab, slices[j], scripts, offset);
      assert scripts[..start] == scripts[..offset][..start] == before[..start];
      assert before <= scripts[..offset + |items[j]|];
      ShowsItemsSnoc(before, scripts[..offset + |items[j]|], packed, items[..j], s, items[j]);
      packed := packed + [s];
      offset := offset + slices[j].len;
    }
    assert items[..|items|] == items;
  }

  lemma ShowsView(buf: seq<Byte>, s: Slice, bytes: seq<Byte>)
    requires Shows(buf, s, bytes)
    ensures s.Within(|buf|) && s.len == |bytes| && buf[s.off..s.off + s.len] == bytes
  {
  }

  lemma ItemCost(items: Stack, j: nat)
    requires j < |items|
    ensures CostMany(ScriptCodec(), items[..j + 1]) == CostMany(ScriptCodec(), items[..j]) + |items[j]|
    ensures CostMany(ScriptCodec(), items[..j + 1]) <= CostMany(ScriptCodec(), items)
  {
    assert items[..j + 1] == items[..j] + [items[j]];
    CostSnoc(ScriptCodec(), items[..j], items[j]);
    CostPrefix(ScriptCodec(), items, j + 1);
  }

  lemma {:induction false} CostPrefix<T>(c: Codec<T>, vs: seq<T>, i: nat)
    requires i <= |vs|
    ensures CostMany(c, vs[..i]) <= CostMany(c, vs)
  {
    if i > 0 {
      assert vs[..i][1..] == vs[1..][..i - 1];
      CostPrefix(c, vs[1..], i - 1);
    }
  }

  /** The packed space taken by the scripts and witnesses of the first `i` inputs. */
  ghost function InsNeed(bare: seq<BareIn>, wits: seq<Stack>, i: nat): nat
    requires i <= |bare| == |wits|
  {
    if i == 0 then 0
    else InsNeed(bare, wits, i - 1) + |bare[i - 1].script| + CostMany(ScriptCodec(), wits[i - 1])
  }

  /** Packing interleaves what the slab keeps apart; the total is the same. */
  lemma {:induction false} InsNeedTotal(bare: seq<BareIn>, wits: seq<Stack>, i: nat)
    requires i <= |bare| == |wits|
    ensures InsNeed(bare, wits, i) == CostMany(InCodec(), bare[..i]) + CostMany(StackCodec(), wits[..i])
  {
    if i > 0 {
      InsNeedTotal(bare, wits, i - 1);
      assert bare[..i] == bare[..i - 1] + [bare[i - 1]];
      assert wits[..i] == wits[..i - 1] + [wits[i - 1]];
      CostSnoc(InCodec(), bare[..i - 1], bare[i - 1]);
      CostSnoc(StackCodec(), wits[..i - 1], wits[i - 1]);
    }
  }

  lemma {:induction false} InsNeedMonotone(bare: seq<BareIn>, wits: seq<Stack>, i: nat, n: nat)
    requires i <= n <= |bare| == |wits|
    ensures InsNeed(bare, wits, i) <= InsNeed(bare, wits, n)
    decreases n
  {
    if i < n { InsNeedMonotone(bare, wits, i, n - 1); }
  }

  /** An input, script and witness, as it reads in a buffer. */
  ghost predicate ShowsTxIn(buf: seq<Byte>, si: SlabIn, ti: BareIn, wit: Stack) {
    ShowsIn(buf, si, ti) && ShowsItems(buf, si.wit, wit)
  }

  method PackIn(slab: array<Byte>, si: SlabIn, ghost ti: BareIn, ghost wit: Stack, scripts: array<Byte>,
                start: nat)
    returns (packed: SlabIn, offset: nat)
    requires slab != scripts && ShowsTxIn(slab[..], si, ti, wit)
    requires start + |ti.script| + CostMany(ScriptCodec(), wit) <= scripts.Length
    modifies scripts
    ensures scripts[..start] == old(scripts[..start])
    ensures offset == start + |ti.script| + CostMany(ScriptCodec(), wit)
    ensures ShowsTxIn(scripts[..offset], packed, ti, wit)
  {
    hide CostMany, ScriptCodec, ShowsItems;
    assert Shows(slab[..], si.script, ti.script);
    var script := PackSlice(slab, si.script, scripts, start);
    offset := start + si.script.len;
    ghost var before := scripts[..offset];
    assert before[..start] == scripts[..start];
    var items;
    items, offset := PackItems(slab, si.wit, wit, scripts, offset);
    assert scripts[..start] == before[..start];
    assert before <= scripts[..offset];
    ShowsGrows(before, scripts[..offset], script, ti.script);
    packed := SlabIn(si.prev, script, si.sequence, items);
  }

  ghost predicate ShowsTxIns(buf: seq<Byte>, ins: seq<SlabIn>, bare: seq<BareIn>, wits: seq<Stack>) {
    && |ins| == |bare| == |wits|
    && forall i :: 0 <= i < |ins| ==> ShowsTxIn(buf, ins[i], bare[i], wits[i])
  }

  lemma ShowsTxInsGrows(buf: seq<Byte>, more: seq<Byte>, ins: seq<SlabIn>, bare: seq<BareIn>,
                        wits: seq<Stack>)
    requires buf <= more && ShowsTxIns(buf, ins, bare, wits)
    ensures ShowsTxIns(more, ins, bare, wits)
  {
    forall i | 0 <= i < |ins| ensures ShowsTxIn(more, ins[i], bare[i], wits[i]) {
      assert ShowsTxIn(buf, ins[i], bare[i], wits[i]);
      ShowsGrows(buf, more, ins[i].script, bare[i].script);
      ShowsItemsGrows(buf, more, ins[i].wit, wits[i]);
    }
  }

  lemma ShowsTxInsSnoc(buf: seq<Byte>, more: seq<Byte>, ins: seq<SlabIn>, bare: seq<BareIn>,
                       wits: seq<Stack>, si: SlabIn, ti: BareIn, wit: Stack)
    requires buf <= more && ShowsTxIns(buf, ins, bare, wits) && ShowsTxIn(more, si, ti, wit)
    ensures ShowsTxIns(more, ins + [si], bare + [ti], wits + [wit])
  {
    hide ShowsTxIn;
    ShowsTxInsGrows(buf, more, ins, bare, wits);
  }

  method PackIns(slab: array<Byte>, ins: seq<SlabIn>, ghost bare: seq<BareIn>, ghost wits: seq<Stack>,
                 scripts: array<Byte>)
    returns (packed: seq<SlabIn>, offset: nat)
    requires slab != scripts && ShowsTxIns(slab[..], ins, bare, wits)
    requires InsNeed(bare, wits, |bare|) <= scripts.Length
    modifies scripts
    ensures offset == InsNeed(bare, wits, |bare|)
    ensures ShowsTxIns(scripts[..offset], packed, bare, wits)
  {
    hide CostMany, ScriptCodec, ShowsTxIn;
    packed, offset := [], 0;
    for i := 0 to |ins|
      invariant offset == InsNeed(bare, wits, i) <= scripts.Length
      invariant ShowsTxIns(scripts[..offset], packed, bare[..i], wits[..i])
    {
      ghost var before := scripts[..offset];
      InsNeedMonotone(bare, wits, i + 1, |bare|);
      assert ShowsTxIn(slab[..], ins[i], bare[i], wits[i]);
      var si, next := PackIn(slab, ins[i], bare[i], wits[i], scripts, offset);
      assert before == scripts[..offset] <= scripts[..next];
      ShowsTxInsSnoc(before, scripts[..next], packed, bare[..i], wits[..i], si, bare[i], wits[i]);
      assert bare[..i + 1] == bare[..i] + [bare[i]] && wits[..i + 1] == wits[..i] + [wits[i]];
      packed, offset := packed + [si], next;
    }
    assert bare[..|bare|] == bare && wits[..|wits|] == wits;
  }

  method PackOuts(slab: array<Byte>, outs: seq<SlabOut>, ghost tos: seq<TxOut>, scripts: array<Byte>, start: nat)
    returns (packed: seq<SlabOut>, offset: nat)
    requires slab != scripts && ShowsOuts(slab[..], outs, tos)
    requires start + CostMany(OutCodec(), tos) <= scripts.Length
    modifies scripts
    ensures scripts[..start] == old(scripts[..start])
    ensures offset == start + CostMany(OutCodec(), tos)
    ensures ShowsOuts(scripts[..offset], packed, tos)
  {
    hide CostMany, OutCodec;
    packed, offset := [], start;
    assert tos[..0] == [];
    CostNone(OutCodec());
    for i := 0 to |outs|
      invariant offset == start + CostMany(OutCodec(), tos[..i]) <= scripts.Length
      invariant scripts[..start] == old(scripts[..start])
      invariant ShowsOuts(scripts[..offset], packed, tos[..i])
    {
      ghost var before := scripts[..offset];
      assert tos[..i + 1] == tos[..i] + [tos[i]];
      OutCost(tos, i);
      assert ShowsOut(slab[..], outs[i], tos[i]);
      var s := PackSlice(slab, outs[i].script, scripts, offset);
      ghost var after := scripts[..offset + |tos[i].script|];
      assert scripts[..start] == scripts[..offset][..start] == before[..start];
      assert before <= after;
      ShowsOutsSnoc(before, after, packed, tos[..i], SlabOut(outs[i].value, s), tos[i]);
      packed := packed + [SlabOut(outs[i].value, s)];
      offset := offset + outs[i].script.len;
    }
    assert tos[..|tos|] == tos;
  }

  lemma OutCost(tos: seq<TxOut>, i: nat)
    requires i < |tos|
    ensures CostMany(OutCodec(), tos[..i + 1]) == CostMany(OutCodec(), tos[..i]) + |tos[i].script|
    ensures CostMany(OutCodec(), tos[..i + 1]) <= CostMany(OutCodec(), tos)
  {
    assert tos[..i + 1] == tos[..i] + [tos[i]];
    CostSnoc(OutCodec(), tos[..i], tos[i]);
    CostPrefix(OutCodec(), tos, i + 1);
  }

  // ----- The whole decoder -----

  /** The inputs and outputs as plain values, read out of the packed buffer. */
  function Item(buf: seq<Byte>, s: Slice): seq<Byte> {
    if s.Within(|buf|) then s.View(buf) else []
  }

  function ResolveIns(buf: seq<Byte>, ins: seq<SlabIn>): (r: seq<TxIn>)
    ensures |r| == |ins|
  {
    seq(|ins|, i requires 0 <= i < |ins| =>
        TxIn(ins[i].prev, Item(buf, ins[i].script), ins[i].sequence, ResolveItems(buf, ins[i].wit)))
  }

  function ResolveItems(buf: seq<Byte>, slices: seq<Slice>): (r: Stack)
    ensures |r| == |slices|
  {
    seq(|slices|, j requires 0 <= j < |slices| => Item(buf, slices[j]))
  }

  function ResolveOuts(buf: seq<Byte>, outs: seq<SlabOut>): (r: seq<TxOut>)
    ensures |r| == |outs|
  {
    seq(|outs|, i requires 0 <= i < |outs| => TxOut(outs[i].value, Item(buf, outs[i].script)))
  }

  lemma ResolveExact(buf: seq<Byte>, ins: seq<SlabIn>, bare: seq<BareIn>, wits: seq<Stack>,
                     outs: seq<SlabOut>, tos: seq<TxOut>)
    requires ShowsTxIns(buf, ins, bare, wits) && ShowsOuts(buf, outs, tos)
    ensures ResolveIns(buf, ins) == Attach(bare, wits)
    ensures ResolveOuts(buf, outs) == tos
  {
    forall i | 0 <= i < |ins| ensures ResolveIns(buf, ins)[i] == Attach(bare, wits)[i] {
      assert ShowsTxIn(buf, ins[i], bare[i], wits[i]);
      assert ResolveItems(buf, ins[i].wit) == wits[i];
    }
    forall i | 0 <= i < |outs| ensures ResolveOuts(buf, outs)[i] == tos[i] {
      assert ShowsOut(buf, outs[i], tos[i]);
    }
  }

  /** Scripts from the slab, packed into one buffer that they fill exactly. */
  method Pack(slab: array<Byte>, total: nat, version: I32, ins: seq<SlabIn>, outs: seq<SlabOut>, lockTime: U32,
              ghost bare: seq<BareIn>, ghost wits: seq<Stack>, ghost tos: seq<TxOut>)
    returns (tx: Tx)
    requires ShowsTxIns(slab[..], ins, bare, wits) && ShowsOuts(slab[..], outs, tos)
    requires total == ScriptBytes(bare, tos, wits)
    ensures tx == Tx(version, Attach(bare, wits), tos, lockTime)
  {
    hide CostMany, InCodec, OutCodec, StackCodec, ShowsTxIns, ShowsOuts, InsNeed;
    var scripts := new Byte[total];
    assert bare[..|bare|] == bare && wits[..|bare|] == wits by { SameLength(slab[..], ins, bare, wits); }
    assert |bare| == |wits| by { SameLength(slab[..], ins, bare, wits); }
    InsNeedTotal(bare, wits, |bare|);
    var packedIns, offset := PackIns(slab, ins, bare, wits, scripts);
    ghost var before := scripts[..offset];
    var packedOuts, end := PackOuts(slab, outs, tos, scripts, offset);
    assert end == total;
    assert scripts[..end] == scripts[..] && before == scripts[..offset] <= scripts[..];
    ShowsTxInsGrows(before, scripts[..], packedIns, bare, wits);
    ResolveExact(scripts[..], packedIns, bare, wits, packedOuts, tos);
    tx := Tx(version, ResolveIns(scripts[..], packedIns), ResolveOuts(scripts[..], packedOuts), lockTime);
  }

  lemma SameLength(buf: seq<Byte>, ins: seq<SlabIn>, bare: seq<BareIn>, wits: seq<Stack>)
    requires ShowsTxIns(buf, ins, bare, wits)
    ensures |ins| == |bare| == |wits|
  {
  }

  method ReadCount(rd: Reader, enc: Encoding) returns (r: Decoding<(nat, bool)>)
    modifies rd
    ensures Follows(r, rd.rest, ParseCount(old(rd.rest), enc))
  {
    hide ParseVarInt;
    var n :- ReadVarInt(rd);
    if n == 0 && enc.WitnessEncoding? {
      var flag :- rd.ReadFull(1);
      if flag[0] != 0x01 {
        return Err(BadFlag);
      }
      var m :- ReadVarInt(rd);
      return Ok((m, true));
    }
    return Ok((n, false));
  }

  lemma ShowsInsGrows(buf: seq<Byte>, more: seq<Byte>, ins: seq<SlabIn>, bare: seq<BareIn>)
    requires buf <= more && ShowsIns(buf, ins, bare)
    ensures ShowsIns(more, ins, bare)
  {
    forall i | 0 <= i < |ins| ensures ShowsIn(more, ins[i], bare[i]) {
      assert ShowsIn(buf, ins[i], bare[i]);
      ShowsGrows(buf, more, ins[i].script, bare[i].script);
    }
  }

  lemma ShowsOutsGrows(buf: seq<Byte>, more: seq<Byte>, outs: seq<SlabOut>, tos: seq<TxOut>)
    requires buf <= more && ShowsOuts(buf, outs, tos)
    ensures ShowsOuts(more, outs, tos)
  {
    forall i | 0 <= i < |outs| ensures ShowsOut(more, outs[i], tos[i]) {
      assert ShowsOut(buf, outs[i], tos[i]);
      ShowsGrows(buf, more, outs[i].script, tos[i].script);
    }
  }

  method ReadBody(rd: Reader, slab: array<Byte>, n: nat)
    returns (r: Decoding<(seq<SlabIn>, seq<SlabOut>)>, off: nat)
    requires slab.Length == SLAB_SIZE
    modifies rd, slab
    ensures match ParseBody(old(rd.rest), n)
            case Err(e) => r == Err(e)
            case Ok(((bare, tos), left)) =>
              && rd.rest == left
              && r.Ok?
              && off == CostMany(InCodec(), bare) + CostMany(OutCodec(), tos) <= slab.Length
              && ShowsIns(slab[..off], r.value.0, bare)
              && ShowsOuts(slab[..off], r.value.1, tos)
              && forall i :: 0 <= i < |r.value.0| ==> r.value.0[i].wit == []
  {
    hide ParseMany, CostMany, ShowsIns, ShowsOuts, InCodec, OutCodec, ParseVarInt;
    if n > MAX_TX_IN {
      return Err(TooManyInputs), 0;
    }
    var ins, start := ReadIns(rd, slab, n);
    if ins.Err? {
      return Err(ins.error), 0;
    }
    ghost var before := slab[..start];
    var m := ReadVarInt(rd);
    if m.Err? {
      return Err(m.error), 0;
    }
    if m.value > MAX_TX_OUT {
      return Err(TooManyOutputs), 0;
    }
    ghost var bare := ParseMany(InCodec(), old(rd.rest), n, slab.Length).value.0;
    var outs;
    outs, off := ReadOuts(rd, slab, m.value, start);
    if outs.Err? {
      return Err(outs.error), 0;
    }
    assert before == slab[..start] <= slab[..off];
    ShowsInsGrows(before, slab[..off], ins.value, bare);
    r := Ok((ins.value, outs.value));
  }

  /** Whether some input carries a witness item. */
  method AnyStack(ins: seq<SlabIn>) returns (any: bool)
    ensures any <==> exists i :: 0 <= i < |ins| && ins[i].wit != []
  {
    for i := 0 to |ins|
      invariant forall k :: 0 <= k < i ==> ins[k].wit == []
    {
      if |ins[i].wit| != 0 {
        return true;
      }
    }
    return false;
  }

  lemma AnyStackIsAnyWitness(buf: seq<Byte>, ins: seq<SlabIn>, wits: seq<Stack>)
    requires ShowsStacks(buf, ins, wits)
    ensures AnyWitness(wits) <==> exists i :: 0 <= i < |ins| && ins[i].wit != []
  {
    forall i | 0 <= i < |ins| ensures ins[i].wit == [] <==> wits[i] == [] {
      assert ShowsItems(buf, ins[i].wit, wits[i]);
    }
  }

  lemma NoStacks(buf: seq<Byte>, ins: seq<SlabIn>)
    requires forall i :: 0 <= i < |ins| ==> ins[i].wit == []
    ensures ShowsStacks(buf, ins, NoWitness(|ins|))
    ensures CostMany(StackCodec(), NoWitness(|ins|)) == 0
  {
    NoWitnessFree(|ins|);
  }

  method ReadWitness(rd: Reader, slab: array<Byte>, ins: seq<SlabIn>, flagged: bool, start: nat)
    returns (r: Decoding<seq<SlabIn>>, off: nat)
    requires start <= slab.Length && forall i :: 0 <= i < |ins| ==> ins[i].wit == []
    modifies rd, slab
    ensures slab[..start] == old(slab[..start])
    ensures match ParseWitness(old(rd.rest), |ins|, flagged, slab.Length - start)
            case Err(e) => r == Err(e)
            case Ok((wits, left)) =>
              && rd.rest == left
              && r.Ok? && |r.value| == |ins|
              && (forall i :: 0 <= i < |ins| ==> r.value[i] == ins[i].(wit := r.value[i].wit))
              && off == start + CostMany(StackCodec(), wits) <= slab.Length
              && ShowsStacks(slab[..off], r.value, wits)
  {
    hide ParseMany, CostMany, ShowsStacks, StackCodec, AnyWitness, NoWitness;
    if !flagged {
      NoStacks(slab[..start], ins);
      return Ok(ins), start;
    }
    r, off := ReadStacks(rd, slab, ins, start);
    if r.Err? {
      return;
    }
    var any := AnyStack(r.value);
    AnyStackIsAnyWitness(slab[..off], r.value,
                         ParseMany(StackCodec(), old(rd.rest), |ins|, slab.Length - start).value.0);
    if !any {
      return Err(SuperfluousWitness), off;
    }
  }

  lemma CombineIns(buf: seq<Byte>, bare: seq<BareIn>, wits: seq<Stack>, ins: seq<SlabIn>, full: seq<SlabIn>)
    requires ShowsIns(buf, ins, bare) && ShowsStacks(buf, full, wits) && |full| == |ins|
    requires forall i :: 0 <= i < |ins| ==> full[i] == ins[i].(wit := full[i].wit)
    ensures ShowsTxIns(buf, full, bare, wits)
  {
    hide Shows, ShowsItems;
    forall i | 0 <= i < |full| ensures ShowsTxIn(buf, full[i], bare[i], wits[i]) {
      assert ShowsIn(buf, ins[i], bare[i]);
    }
  }

  lemma ShowsStacksGrows(buf: seq<Byte>, more: seq<Byte>, ins: seq<SlabIn>, wits: seq<Stack>)
    requires buf <= more && ShowsStacks(buf, ins, wits)
    ensures ShowsStacks(more, ins, wits)
  {
    forall i | 0 <= i < |ins| ensures ShowsItems(more, ins[i].wit, wits[i]) {
      ShowsItemsGrows(buf, more, ins[i].wit, wits[i]);
    }
  }

  /** Witnesses, lock time, and the packing of everything read. */
  method ReadTail(rd: Reader, slab: array<Byte>, version: I32, ins: seq<SlabIn>, outs: seq<SlabOut>,
                  flagged: bool, start: nat, ghost bare: seq<BareIn>, ghost tos: seq<TxOut>)
    returns (r: Decoding<Tx>)
    requires slab.Length == SLAB_SIZE
    requires start == CostMany(InCodec(), bare) + CostMany(OutCodec(), tos) <= slab.Length
    requires ShowsIns(slab[..start], ins, bare) && ShowsOuts(slab[..start], outs, tos)
    requires forall i :: 0 <= i < |ins| ==> ins[i].wit == []
    modifies rd, slab
    ensures Follows(r, rd.rest, ParseTail(old(rd.rest), version, bare, tos, flagged))
  {
    hide CostMany, ShowsOuts, ShowsStacks, InCodec, OutCodec, StackCodec, ShowsTxIns, ShowsIn, ParseWitness;
    ghost var before := slab[..start];
    assert |ins| == |bare|;
    var full, off := ReadWitness(rd, slab, ins, flagged, start);
    if full.Err? {
      return Err(full.error);
    }
    ghost var wits := ParseWitness(old(rd.rest), |bare|, flagged, SlabLeft(bare, tos)).value.0;
    var lock :- rd.ReadFull(4);
    assert before == slab[..start] <= slab[..] && slab[..off] <= slab[..];
    ShowsInsGrows(before, slab[..], ins, bare);
    ShowsOutsGrows(before, slab[..], outs, tos);
    ShowsStacksGrows(slab[..off], slab[..], full.value, wits);
    CombineIns(slab[..], bare, wits, ins, full.value);
    var tx := Pack(slab, off, version, full.value, outs, Uint32(lock), bare, wits, tos);
    r := Ok(tx);
  }

  /** The decoder: same verdict, same transaction and same bytes left as `DecodeTx`. */
  method BtcDecode(rd: Reader, enc: Encoding, slab: array<Byte>) returns (r: Decoding<Tx>)
    requires slab.Length == SLAB_SIZE
    modifies rd, slab
    ensures Follows(r, rd.rest, DecodeTx(old(rd.rest), enc))
  {
    hide CostMany, InCodec, OutCodec, ShowsIns, ShowsOuts, ParseTail, ParseBody, ParseCount, FromLittleEndian,
      LittleEndian;
    var version :- rd.ReadFull(4);
    var count :- ReadCount(rd, enc);
    ghost var atBody := rd.rest;
    var body, off := ReadBody(rd, slab, count.0);
    if body.Err? {
      return Err(body.error);
    }
    ghost var (bare, tos) := ParseBody(atBody, count.0).value.0;
    r := ReadTail(rd, slab, ToInt32(Uint32(version)), body.value.0, body.value.1, count.1, off, bare, tos);
  }
}
