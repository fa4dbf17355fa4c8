/**
 Decoding from a byte stream: a decoder maps the bytes still unread to a value and the
 bytes left over. A `Codec` pairs a decoder with its encoder; `Lawful` says that the decoder
 accepts exactly the encodings of admissible values. Lists of lawful codecs are lawful.
 */
module Codecs {
  import opened Wrappers
  import opened Bytes

  datatype DecodeError =
    | ShortRead
    | NonCanonicalVarInt
    | BadFlag
    | TooManyInputs
    | TooManyOutputs
    | TooManyWitnessItems
    | ScriptTooLong
    | SlabExhausted
    | SuperfluousWitness
    | TooManyTransactions

  type Decoding<+T> = Result<T, DecodeError>

  /** A decoded value and the bytes that follow it. */
  type Parsed<+T> = Decoding<(T, seq<Byte>)>

  function Take(bs: seq<Byte>, n: nat): (r: Parsed<seq<Byte>>)
    ensures r.Ok? <==> n <= |bs|
    ensures r.Ok? ==> |r.value.0| == n && bs == r.value.0 + r.value.1
  {
    if |bs| < n then Err(ShortRead) else Ok((bs[..n], bs[n..]))
  }

  lemma TakePrefix(a: seq<Byte>, rest: seq<Byte>)
    ensures Take(a + rest, |a|) == Ok((a, rest))
  {
    assert (a + rest)[..|a|] == a && (a + rest)[|a|..] == rest;
  }

  // ----- Variable-length integers -----

  function EncodeVarInt(n: nat): seq<Byte> {
    if n < 0xfd then [n]
    else if n <= 0xffff then [0xfd] + LittleEndian(n, 2)
    else if n <= 0xffff_ffff then [0xfe] + LittleEndian(n, 4)
    else [0xff] + LittleEndian(n, 8)
  }

  function VarIntSize(n: nat): nat {
    if n < 0xfd then 1 else if n <= 0xffff then 3 else if n <= 0xffff_ffff then 5 else 9
  }

  /** The payload of a varint whose discriminant has been read: `width` bytes, at least `min`. */
  function ParseWide(bs: seq<Byte>, width: nat, min: nat): Parsed<nat> {
    var (b, rest) :- Take(bs, width);
    if FromLittleEndian(b) < min then Err(NonCanonicalVarInt) else Ok((FromLittleEndian(b), rest))
  }

  function ParseVarInt(bs: seq<Byte>): Parsed<nat> {
    var (d, rest) :- Take(bs, 1);
    if d[0] == 0xff then ParseWide(rest, 8, 0x1_0000_0000)
    else if d[0] == 0xfe then ParseWide(rest, 4, 0x1_0000)
    else if d[0] == 0xfd then ParseWide(rest, 2, 0xfd)
    else Ok((d[0], rest))
  }

  lemma WideSound(bs: seq<Byte>, width: nat, min: nat)
    ensures var r := ParseWide(bs, width, min);
            r.Ok? ==>
              && min <= r.value.0 < Pow256(width)
              && bs == LittleEndian(r.value.0, width) + r.value.1
  {
    if width <= |bs| { LittleEndianCanonical(bs[..width]); }
  }

  lemma WideComplete(n: nat, width: nat, min: nat, rest: seq<Byte>)
    requires min <= n < Pow256(width)
    ensures ParseWide(LittleEndian(n, width) + rest, width, min) == Ok((n, rest))
  {
    TakePrefix(LittleEndian(n, width), rest);
    LittleEndianRoundTrip(n, width);
  }

  lemma VarIntSound(bs: seq<Byte>)
    ensures var r := ParseVarInt(bs);
            r.Ok? ==>
              r.value.0 < 0x1_0000_0000_0000_0000 && bs == EncodeVarInt(r.value.0) + r.value.1
  {
    Pow256Values();
    if bs != [] {
      var rest := bs[1..];
      assert bs == [bs[0]] + rest;
      if bs[0] == 0xff {
        WideSound(rest, 8, 0x1_0000_0000);
      } else if bs[0] == 0xfe {
        WideSound(rest, 4, 0x1_0000);
      } else if bs[0] == 0xfd {
        WideSound(rest, 2, 0xfd);
      }
      var r := ParseVarInt(bs);
      if r.Ok? && bs[0] >= 0xfd {
        var e := EncodeVarInt(r.value.0);
        assert [bs[0]] + (e[1..] + r.value.1) == e + r.value.1;
      }
    }
  }

  lemma VarIntComplete(n: U64, rest: seq<Byte>)
    ensures ParseVarInt(EncodeVarInt(n) + rest) == Ok((n, rest))
    ensures |EncodeVarInt(n)| == VarIntSize(n)
  {
    var e := EncodeVarInt(n);
    Pow256Values();
    TakePrefix([e[0]], e[1..] + rest);
    assert e + rest == [e[0]] + (e[1..] + rest);
    if 0xfd <= n <= 0xffff {
      WideComplete(n, 2, 0xfd, rest);
    } else if 0x1_0000 <= n <= 0xffff_ffff {
      WideComplete(n, 4, 0x1_0000, rest);
    } else if 0xffff_ffff < n {
      WideComplete(n, 8, 0x1_0000_0000, rest);
    }
  }

  // ----- Codecs -----

  /**
   `dec` takes the bytes and the free space in the script slab; `cost` is the slab space a
   value uses up, `size` the number of bytes it encodes to, `ok` which values are admissible.
   */
  datatype Codec<!T> = Codec(
    ok: T -> bool,
    enc: T -> seq<Byte>,
    dec: (seq<Byte>, int) -> Parsed<T>,
    cost: T -> nat,
    size: T -> nat)

  /** Whatever the decoder accepts is an admissible value followed by the bytes it leaves. */
  ghost predicate Sound<T(!new)>(c: Codec<T>) {
    forall bs, slab :: 0 <= slab && c.dec(bs, slab).Ok? ==>
      var (v, rest) := c.dec(bs, slab).value;
      c.ok(v) && c.cost(v) <= slab && bs == c.enc(v) + rest
  }

  ghost predicate AcceptsEncoding<T(!new)>(c: Codec<T>, v: T, slab: int) {
    forall rest :: c.dec(c.enc(v) + rest, slab) == Ok((v, rest))
  }

  /** Every admissible value that fits is decoded back from its encoding, whatever follows. */
  ghost predicate Complete<T(!new)>(c: Codec<T>) {
    forall v, slab :: c.ok(v) && c.cost(v) <= slab ==> AcceptsEncoding(c, v, slab)
  }

  ghost predicate Sized<T(!new)>(c: Codec<T>) {
    forall v :: c.ok(v) ==> |c.enc(v)| == c.size(v)
  }

  ghost predicate Lawful<T(!new)>(c: Codec<T>) {
    Sound(c) && Complete(c) && Sized(c)
  }

  // ----- Lists -----

  predicate AllOk<T>(c: Codec<T>, vs: seq<T>) {
    forall i :: 0 <= i < |vs| ==> c.ok(vs[i])
  }

  function EncodeMany<T>(c: Codec<T>, vs: seq<T>): seq<Byte> {
    if vs == [] then [] else c.enc(vs[0]) + EncodeMany(c, vs[1..])
  }

  function CostMany<T>(c: Codec<T>, vs: seq<T>): nat {
    if vs == [] then 0 else c.cost(vs[0]) + CostMany(c, vs[1..])
  }

  function SizeMany<T>(c: Codec<T>, vs: seq<T>): nat {
    if vs == [] then 0 else c.size(vs[0]) + SizeMany(c, vs[1..])
  }

  function ParseMany<T>(c: Codec<T>, bs: seq<Byte>, n: nat, slab: int): Parsed<seq<T>>
    decreases n
  {
    if n == 0 then Ok(([], bs))
    else
      var (v, r1) :- c.dec(bs, slab);
      var (more, r2) :- ParseMany(c, r1, n - 1, slab - c.cost(v));
      Ok(([v] + more, r2))
  }

  lemma {:induction false} ManySound<T(!new)>(c: Codec<T>, bs: seq<Byte>, n: nat, slab: int)
    requires Sound(c) && 0 <= slab
    ensures var r := ParseMany(c, bs, n, slab);
            r.Ok? ==>
              && |r.value.0| == n
              && AllOk(c, r.value.0)
              && CostMany(c, r.value.0) <= slab
              && bs == EncodeMany(c, r.value.0) + r.value.1
    decreases n
  {
    var r := ParseMany(c, bs, n, slab);
    if n > 0 && r.Ok? {
      var (v, r1) := c.dec(bs, slab).value;
      ManySound(c, r1, n - 1, slab - c.cost(v));
      var more := ParseMany(c, r1, n - 1, slab - c.cost(v)).value.0;
      assert r.value.0[1..] == more;
      assert c.enc(v) + (EncodeMany(c, more) + r.value.1) == c.enc(v) + EncodeMany(c, more) + r.value.1;
    }
  }

  lemma {:induction false} ManyComplete<T(!new)>(c: Codec<T>, vs: seq<T>, slab: int, rest: seq<Byte>)
    requires Complete(c) && AllOk(c, vs) && CostMany(c, vs) <= slab
    ensures ParseMany(c, EncodeMany(c, vs) + rest, |vs|, slab) == Ok((vs, rest))
  {
    if vs == [] {
      assert EncodeMany(c, vs) + rest == rest;
    } else {
      var tail := EncodeMany(c, vs[1..]) + rest;
      assert EncodeMany(c, vs) + rest == c.enc(vs[0]) + tail;
      assert AcceptsEncoding(c, vs[0], slab);
      ManyComplete(c, vs[1..], slab - c.cost(vs[0]), rest);
      assert vs == [vs[0]] + vs[1..];
    }
  }

  lemma {:induction false} ManySized<T(!new)>(c: Codec<T>, vs: seq<T>)
    requires Sized(c) && AllOk(c, vs)
    ensures |EncodeMany(c, vs)| == SizeMany(c, vs)
  {
    if vs != [] { ManySized(c, vs[1..]); }
  }

  lemma {:induction false} ManyCount<T>(c: Codec<T>, bs: seq<Byte>, n: nat, slab: int)
    ensures var r := ParseMany(c, bs, n, slab); r.Ok? ==> |r.value.0| == n
    decreases n
  {
    if n > 0 && c.dec(bs, slab).Ok? {
      var (v, r1) := c.dec(bs, slab).value;
      ManyCount(c, r1, n - 1, slab - c.cost(v));
    }
  }

  // ----- Reading a list one value at a time -----

  function Prepend<T>(done: seq<T>, p: Parsed<seq<T>>): Parsed<seq<T>> {
    match p
    case Ok((vs, rest)) => Ok((done + vs, rest))
    case Err(e) => Err(e)
  }

  /** `total` is what reading the whole list gives, when `done` has been read and `m` are left. */
  ghost predicate InProgress<T>(c: Codec<T>, total: Parsed<seq<T>>, done: seq<T>, bs: seq<Byte>, m: nat,
                                slab: int)
  {
    total == Prepend(done, ParseMany(c, bs, m, slab))
  }

  lemma ManyStart<T>(c: Codec<T>, bs: seq<Byte>, m: nat, slab: int)
    ensures InProgress(c, ParseMany(c, bs, m, slab), [], bs, m, slab)
  {
    var r := ParseMany(c, bs, m, slab);
    if r.Ok? { assert [] + r.value.0 == r.value.0; }
  }

  lemma ManyAdvance<T>(c: Codec<T>, total: Parsed<seq<T>>, done: seq<T>, bs: seq<Byte>, m: nat, slab: int,
                       v: T, rest: seq<Byte>)
    requires InProgress(c, total, done, bs, m, slab) && m > 0
    requires c.dec(bs, slab) == Ok((v, rest))
    ensures InProgress(c, total, done + [v], rest, m - 1, slab - c.cost(v))
    ensures CostMany(c, done + [v]) == CostMany(c, done) + c.cost(v)
  {
    var r := ParseMany(c, rest, m - 1, slab - c.cost(v));
    if r.Ok? { assert done + ([v] + r.value.0) == done + [v] + r.value.0; }
    CostSnoc(c, done, v);
  }

  lemma CostNone<T>(c: Codec<T>)
    ensures CostMany(c, []) == 0
  {
  }

  lemma {:induction false} CostSnoc<T>(c: Codec<T>, vs: seq<T>, v: T)
    ensures CostMany(c, vs + [v]) == CostMany(c, vs) + c.cost(v)
  {
    if vs == [] {
      assert vs + [v] == [v];
    } else {
      assert (vs + [v])[1..] == vs[1..] + [v];
      CostSnoc(c, vs[1..], v);
    }
  }

  lemma {:induction false} SizeSnoc<T>(c: Codec<T>, vs: seq<T>, v: T)
    ensures SizeMany(c, vs + [v]) == SizeMany(c, vs) + c.size(v)
  {
    if vs == [] {
      assert vs + [v] == [v] && [v][1..] == [];
    } else {
      assert (vs + [v])[1..] == vs[1..] + [v];
      SizeSnoc(c, vs[1..], v);
    }
  }

  lemma ManyStop<T>(c: Codec<T>, total: Parsed<seq<T>>, done: seq<T>, bs: seq<Byte>, m: nat, slab: int)
    requires InProgress(c, total, done, bs, m, slab) && m > 0
    requires c.dec(bs, slab).Err?
    ensures total == Err(c.dec(bs, slab).error)
  {
  }

  lemma ManyFinish<T>(c: Codec<T>, total: Parsed<seq<T>>, done: seq<T>, bs: seq<Byte>, slab: int)
    requires InProgress(c, total, done, bs, 0, slab)
    ensures total == Ok((done, bs))
  {
    assert done + [] == done;
  }

  // ----- Lists preceded by their length -----

  function EncodeCounted<T>(c: Codec<T>, vs: seq<T>): seq<Byte> {
    EncodeVarInt(|vs|) + EncodeMany(c, vs)
  }

  function SizeCounted<T>(c: Codec<T>, vs: seq<T>): nat {
    VarIntSize(|vs|) + SizeMany(c, vs)
  }

  /** A count, refused with `tooMany` above `max`, and that many values. */
  function ParseCounted<T>(c: Codec<T>, max: nat, tooMany: DecodeError, bs: seq<Byte>, slab: int)
    : Parsed<seq<T>>
  {
    var (n, rest) :- ParseVarInt(bs);
    if n > max then Err(tooMany) else ParseMany(c, rest, n, slab)
  }

  lemma CountedSound<T(!new)>(c: Codec<T>, max: nat, tooMany: DecodeError, bs: seq<Byte>, slab: int)
    requires Sound(c) && 0 <= slab
    ensures var r := ParseCounted(c, max, tooMany, bs, slab);
            r.Ok? ==>
              && |r.value.0| <= max
              && AllOk(c, r.value.0)
              && CostMany(c, r.value.0) <= slab
              && bs == EncodeCounted(c, r.value.0) + r.value.1
  {
    VarIntSound(bs);
    var r := ParseCounted(c, max, tooMany, bs, slab);
    if r.Ok? {
      var (n, rest) := ParseVarInt(bs).value;
      ManySound(c, rest, n, slab);
      Flatten3(EncodeVarInt(n), EncodeMany(c, r.value.0), r.value.1);
    }
  }

  lemma CountedComplete<T(!new)>(c: Codec<T>, max: nat, tooMany: DecodeError, vs: seq<T>, slab: int,
                                 rest: seq<Byte>)
    requires Complete(c) && AllOk(c, vs) && CostMany(c, vs) <= slab
    requires |vs| <= max < 0x1_0000_0000_0000_0000
    ensures ParseCounted(c, max, tooMany, EncodeCounted(c, vs) + rest, slab) == Ok((vs, rest))
  {
    Flatten3(EncodeVarInt(|vs|), EncodeMany(c, vs), rest);
    VarIntComplete(|vs|, EncodeMany(c, vs) + rest);
    ManyComplete(c, vs, slab, rest);
  }

  lemma CountedSized<T(!new)>(c: Codec<T>, vs: seq<T>)
    requires Sized(c) && AllOk(c, vs) && |vs| < 0x1_0000_0000_0000_0000
    ensures |EncodeCounted(c, vs)| == SizeCounted(c, vs)
  {
    VarIntComplete(|vs|, []);
    ManySized(c, vs);
  }

  lemma Flatten3(a: seq<Byte>, b: seq<Byte>, c: seq<Byte>)
    ensures a + (b + c) == a + b + c
  {
  }

  /** `n` values of one kind and a counted list of another, sharing the slab. */
  function ParseManyThenCounted<A, B>(ca: Codec<A>, cb: Codec<B>, max: nat, tooMany: DecodeError,
                                      bs: seq<Byte>, n: nat, slab: int): Parsed<(seq<A>, seq<B>)>
  {
    var (xs, r1) :- ParseMany(ca, bs, n, slab);
    var (ys, r2) :- ParseCounted(cb, max, tooMany, r1, slab - CostMany(ca, xs));
    Ok(((xs, ys), r2))
  }

  lemma ManyThenCountedSound<A(!new), B(!new)>(ca: Codec<A>, cb: Codec<B>, max: nat, tooMany: DecodeError,
                                               bs: seq<Byte>, n: nat, slab: int)
    requires Sound(ca) && Sound(cb) && 0 <= slab
    ensures var r := ParseManyThenCounted(ca, cb, max, tooMany, bs, n, slab);
            r.Ok? ==>
              var (xs, ys) := r.value.0;
              && |xs| == n && |ys| <= max
              && AllOk(ca, xs) && AllOk(cb, ys)
              && CostMany(ca, xs) + CostMany(cb, ys) <= slab
              && bs == EncodeMany(ca, xs) + EncodeCounted(cb, ys) + r.value.1
  {
    ManySound(ca, bs, n, slab);
    var r := ParseManyThenCounted(ca, cb, max, tooMany, bs, n, slab);
    if r.Ok? {
      var (xs, r1) := ParseMany(ca, bs, n, slab).value;
      CountedSound(cb, max, tooMany, r1, slab - CostMany(ca, xs));
      Flatten3(EncodeMany(ca, xs), EncodeCounted(cb, r.value.0.1), r.value.1);
    }
  }

  lemma ManyThenCountedComplete<A(!new), B(!new)>(ca: Codec<A>, cb: Codec<B>, max: nat,
                                                  tooMany: DecodeError, xs: seq<A>, ys: seq<B>,
                                                  slab: int, rest: seq<Byte>)
    requires Complete(ca) && Complete(cb) && AllOk(ca, xs) && AllOk(cb, ys)
    requires |ys| <= max < 0x1_0000_0000_0000_0000
    requires CostMany(ca, xs) + CostMany(cb, ys) <= slab
    ensures ParseManyThenCounted(ca, cb, max, tooMany, EncodeMany(ca, xs) + EncodeCounted(cb, ys) + rest,
                                 |xs|, slab)
         == Ok(((xs, ys), rest))
  {
    hide ParseCounted, ParseMany, EncodeMany, EncodeCounted;
    var tail := EncodeCounted(cb, ys) + rest;
    ManyComplete(ca, xs, slab, tail);
    CountedComplete(cb, max, tooMany, ys, slab - CostMany(ca, xs), rest);
    Flatten3(EncodeMany(ca, xs), EncodeCounted(cb, ys), rest);
    ManyThenCountedStep(ca, cb, max, tooMany, EncodeMany(ca, xs) + tail, slab, (xs, tail), (ys, rest));
  }

  lemma ManyThenCountedStep<A, B>(ca: Codec<A>, cb: Codec<B>, max: nat, tooMany: DecodeError,
                                  bs: seq<Byte>, slab: int, a: (seq<A>, seq<Byte>), b: (seq<B>, seq<Byte>))
    requires ParseMany(ca, bs, |a.0|, slab) == Ok(a)
    requires ParseCounted(cb, max, tooMany, a.1, slab - CostMany(ca, a.0)) == Ok(b)
    ensures ParseManyThenCounted(ca, cb, max, tooMany, bs, |a.0|, slab) == Ok(((a.0, b.0), b.1))
  {
    hide ParseCounted, ParseMany;
  }
}
