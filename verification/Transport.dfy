/**
 The packets of the encrypted transport (BIP 324, section "Packet encryption overview"): what one
 peer writes, what the other reads back from the byte stream, and why the two stay in step.
 */
module Transport {
  import opened Wrappers
  import opened Bytes
  import opened Ciphers

  const MAX_CONTENT: nat := 0xff_ffff
  const LENGTH_FIELD: nat := 3
  const HEADER: nat := 1
  const IGNORE_BIT: Byte := 128

  datatype Error = ContentTooLong | FailedToReceive | FailedToOpen | NoTerminator

  /** The packet cipher and the length cipher of one direction. */
  datatype Direction = Direction(packet: PacketState, length: LengthState)

  datatype Packet = Packet(contents: seq<Byte>, aad: seq<Byte>, ignore: bool)

  function NextDirection(s: Suite, d: Direction): Direction {
    Direction(NextPacket(s, d.packet), NextLength(s, d.length, LENGTH_FIELD))
  }

  function LengthBytes(n: nat): (bs: seq<Byte>)
    ensures |bs| == LENGTH_FIELD
  {
    LittleEndian(n, 4)[..3]
  }

  /** The bytes of one packet: the encrypted length, then the sealed header and contents. */
  function Emit(s: Suite, d: Direction, p: Packet): seq<Byte> {
    XorBytes(LengthBytes(|p.contents|), StreamBytes(s, d.length, LENGTH_FIELD))
    + s.seal(d.packet.key, Nonce(d.packet.ctr), [if p.ignore then IGNORE_BIT else 0] + p.contents, p.aad)
  }

  /** The outcome of reading one packet, the direction after it, and the bytes left. */
  datatype Reading = Reading(result: Result<Packet, Error>, after: Direction, rest: seq<Byte>)

  function ReadLength(s: Suite, d: Direction, field: seq<Byte>): (n: nat)
    requires |field| == LENGTH_FIELD
  {
    Uint32(XorBytes(field, StreamBytes(s, d.length, LENGTH_FIELD)) + [0])
  }

  /**
   One turn of the receive loop. The length cipher advances before the packet cipher. An opened
   text without the header byte is treated as a failure.
   */
  function ReadPacket(s: Suite, d: Direction, stream: seq<Byte>, aad: seq<Byte>): (r: Reading)
    ensures r.result.Ok? ==> |r.rest| < |stream|
  {
    if |stream| < LENGTH_FIELD then Reading(Err(FailedToReceive), d, [])
    else
      var n := ReadLength(s, d, stream[..LENGTH_FIELD]);
      var moved := d.(length := NextLength(s, d.length, LENGTH_FIELD));
      var body := stream[LENGTH_FIELD..];
      var size := HEADER + n + EXPANSION;
      if n > MAX_CONTENT then Reading(Err(ContentTooLong), moved, body)
      else if |body| < size then Reading(Err(FailedToReceive), moved, [])
      else
        match s.open(d.packet.key, Nonce(d.packet.ctr), body[..size], aad)
        case None => Reading(Err(FailedToOpen), moved, body[size..])
        case Some(text) =>
          if |text| == 0 then Reading(Err(FailedToOpen), NextDirection(s, d), body[size..])
          else Reading(Ok(Packet(text[1..], aad, text[0] >= IGNORE_BIT)), NextDirection(s, d), body[size..])
  }

  /** Reads packets until one is not a decoy; associated data applies to the first only. */
  function Receive(s: Suite, d: Direction, stream: seq<Byte>, aad: seq<Byte>): (r: Reading)
    ensures r.result.Ok? ==> !r.result.value.ignore
    decreases |stream|
  {
    var one := ReadPacket(s, d, stream, aad);
    if one.result.Ok? && one.result.value.ignore then Receive(s, one.after, one.rest, [])
    else one
  }

  // ----- One packet -----

  lemma LengthRoundTrip(n: nat)
    requires n <= MAX_CONTENT
    ensures Uint32(LengthBytes(n) + [0]) == n
  {
    hide Uint32;
    LastByteZero(n);
    assert LengthBytes(n) + [0] == LittleEndian(n, 4);
    Uint32RoundTrip(n);
  }

  lemma LastByteZero(n: nat)
    requires n <= MAX_CONTENT
    ensures LittleEndian(n, 4)[3] == 0
  {
    var a := n / 256;
    var b := a / 256;
    var c := b / 256;
    assert LittleEndian(n, 4)[1..] == LittleEndian(a, 3);
    assert LittleEndian(a, 3)[1..] == LittleEndian(b, 2);
    assert LittleEndian(b, 2)[1..] == LittleEndian(c, 1);
    assert c == 0;
  }

  lemma ReadLengthOf(s: Suite, d: Direction, n: nat)
    requires n <= MAX_CONTENT
    ensures ReadLength(s, d, XorBytes(LengthBytes(n), StreamBytes(s, d.length, LENGTH_FIELD))) == n
  {
    hide XorBytes, StreamBytes, LengthBytes, Uint32;
    XorTwice(LengthBytes(n), StreamBytes(s, d.length, LENGTH_FIELD));
    LengthRoundTrip(n);
  }

  lemma SealLaws(s: Suite, key: seq<Byte>, nonce: seq<Byte>, text: seq<Byte>, aad: seq<Byte>)
    requires Lawful(s)
    ensures |s.seal(key, nonce, text, aad)| == |text| + EXPANSION
    ensures s.open(key, nonce, s.seal(key, nonce, text, aad), aad) == Some(text)
  {
  }

  /** The bytes of a packet with any header byte. */
  function Sealed(s: Suite, d: Direction, header: Byte, contents: seq<Byte>, aad: seq<Byte>): seq<Byte> {
    XorBytes(LengthBytes(|contents|), StreamBytes(s, d.length, LENGTH_FIELD))
    + s.seal(d.packet.key, Nonce(d.packet.ctr), [header] + contents, aad)
  }

  /**
   Of the header byte only the top bit counts: a packet is a decoy exactly when that bit is set,
   whatever the other seven bits are. A packet takes twenty bytes more than its contents.
   */
  lemma ReadSealed(s: Suite, d: Direction, header: Byte, contents: seq<Byte>, aad: seq<Byte>, rest: seq<Byte>)
    requires Lawful(s) && |contents| <= 0xff_ffff
    ensures |Sealed(s, d, header, contents, aad)| == |contents| + 20
    ensures ReadPacket(s, d, Sealed(s, d, header, contents, aad) + rest, aad)
         == Reading(Ok(Packet(contents, aad, header / 128 == 1)), NextDirection(s, d), rest)
  {
    hide Lawful, Nonce, XorBytes, StreamBytes, LengthBytes, ReadLength, NextDirection, NextLength;
    var field := XorBytes(LengthBytes(|contents|), StreamBytes(s, d.length, LENGTH_FIELD));
    var text := [header] + contents;
    var sealed := s.seal(d.packet.key, Nonce(d.packet.ctr), text, aad);
    SealLaws(s, d.packet.key, Nonce(d.packet.ctr), text, aad);
    ReadLengthOf(s, d, |contents|);
    var stream := Sealed(s, d, header, contents, aad) + rest;
    assert stream == field + (sealed + rest);
    assert stream[..LENGTH_FIELD] == field && stream[LENGTH_FIELD..] == sealed + rest;
    assert (sealed + rest)[..|sealed|] == sealed && (sealed + rest)[|sealed|..] == rest;
    assert text[1..] == contents;
  }

  /** A packet read in the direction it was written in comes back, and both directions move on alike. */
  lemma ReadEmitted(s: Suite, d: Direction, p: Packet, rest: seq<Byte>)
    requires Lawful(s) && |p.contents| <= 0xff_ffff
    ensures ReadPacket(s, d, Emit(s, d, p) + rest, p.aad) == Reading(Ok(p), NextDirection(s, d), rest)
  {
    hide Lawful, Nonce, XorBytes, StreamBytes, LengthBytes, ReadLength, NextDirection, NextLength, ReadPacket;
    var header: Byte := if p.ignore then IGNORE_BIT else 0;
    ReadSealed(s, d, header, p.contents, p.aad, rest);
    assert Emit(s, d, p) == Sealed(s, d, header, p.contents, p.aad);
  }

  /** A decoy is told by the header byte 128 and a real packet by 0. */
  lemma EmittedHeader(s: Suite, d: Direction, p: Packet)
    requires Lawful(s)
    ensures |Emit(s, d, p)| == |p.contents| + 20
    ensures s.open(d.packet.key, Nonce(d.packet.ctr), Emit(s, d, p)[3..], p.aad)
         == Some([if p.ignore then 128 else 0] + p.contents)
  {
    hide Lawful, Nonce, XorBytes, StreamBytes, LengthBytes;
    var text := [if p.ignore then IGNORE_BIT else 0] + p.contents;
    var sealed := s.seal(d.packet.key, Nonce(d.packet.ctr), text, p.aad);
    SealLaws(s, d.packet.key, Nonce(d.packet.ctr), text, p.aad);
    assert Emit(s, d, p)[3..] == sealed;
  }

  // ----- Packet sequences -----

  /** The bytes of a sequence of packets. */
  function Stream(s: Suite, d: Direction, ps: seq<Packet>): seq<Byte>
    decreases |ps|
  {
    if ps == [] then [] else Emit(s, d, ps[0]) + Stream(s, NextDirection(s, d), ps[1..])
  }

  function AfterPackets(s: Suite, d: Direction, n: nat): Direction
    decreases n
  {
    if n == 0 then d else AfterPackets(s, NextDirection(s, d), n - 1)
  }

  /** The contents of the packets that are not decoys. */
  function Real(ps: seq<Packet>): seq<seq<Byte>>
    decreases |ps|
  {
    if ps == [] then [] else (if ps[0].ignore then [] else [ps[0].contents]) + Real(ps[1..])
  }

  /** Contents are within the limit and only the first packet has associated data. */
  predicate Sendable(ps: seq<Packet>, aad: seq<Byte>) {
    && (forall i :: 0 <= i < |ps| ==> |ps[i].contents| <= 0xff_ffff)
    && (forall i :: 0 <= i < |ps| ==> ps[i].aad == if i == 0 then aad else [])
  }

  datatype Readings = Readings(results: seq<seq<Byte>>, after: Direction, rest: seq<Byte>)

  /** Successive receive calls, the first with associated data; stops at the first error. */
  function ReceiveMany(s: Suite, d: Direction, stream: seq<Byte>, aad: seq<Byte>, n: nat): Readings
    decreases n
  {
    if n == 0 then Readings([], d, stream)
    else
      var r := Receive(s, d, stream, aad);
      if r.result.Err? then Readings([], r.after, r.rest)
      else
        var more := ReceiveMany(s, r.after, r.rest, [], n - 1);
        more.(results := [r.result.value.contents] + more.results)
  }

  lemma SendableTail(ps: seq<Packet>, aad: seq<Byte>)
    requires ps != [] && Sendable(ps, aad)
    ensures Sendable(ps[1..], []) && ps[0].aad == aad && |ps[0].contents| <= 0xff_ffff
  {
    forall i | 0 <= i < |ps[1..]|
      ensures ps[1..][i].aad == [] && |ps[1..][i].contents| <= 0xff_ffff
    {
      assert ps[1..][i] == ps[i + 1];
    }
  }

  /**
   Lockstep: for every packet sequence that ends in a real packet, as many receive calls as there
   are real packets return exactly their contents in order, consume exactly the bytes sent, and
   leave the receiver's ciphers in the sender's state, across every rekeying.
   */
  lemma {:induction false} Lockstep(s: Suite, d: Direction, ps: seq<Packet>, aad: seq<Byte>, rest: seq<Byte>)
    requires Lawful(s) && Sendable(ps, aad) && (ps != [] ==> !ps[|ps| - 1].ignore)
    ensures ReceiveMany(s, d, Stream(s, d, ps) + rest, aad, |Real(ps)|)
         == Readings(Real(ps), AfterPackets(s, d, |ps|), rest)
    decreases |ps|
  {
    hide Lawful, Emit, ReadPacket, NextDirection, Sendable;
    if ps == [] {
      assert Stream(s, d, ps) + rest == rest;
    } else {
      var next := NextDirection(s, d);
      var tail := Stream(s, next, ps[1..]) + rest;
      assert Stream(s, d, ps) + rest == Emit(s, d, ps[0]) + tail;
      SendableTail(ps, aad);
      ReadEmitted(s, d, ps[0], tail);
      Lockstep(s, next, ps[1..], [], rest);
      if ps[0].ignore {
        RealLast(ps[1..]);
        SkipDecoy(s, d, Stream(s, d, ps) + rest, aad, tail, |Real(ps)|);
      }
    }
  }

  lemma {:induction false} RealLast(ps: seq<Packet>)
    requires ps != [] && !ps[|ps| - 1].ignore
    ensures |Real(ps)| > 0
    decreases |ps|
  {
    if |ps| > 1 {
      RealLast(ps[1..]);
    }
  }

  lemma SkipDecoy(s: Suite, d: Direction, stream: seq<Byte>, aad: seq<Byte>, tail: seq<Byte>, n: nat)
    requires n > 0
    requires var one := ReadPacket(s, d, stream, aad);
      one.result.Ok? && one.result.value.ignore && one.after == NextDirection(s, d) && one.rest == tail
    ensures ReceiveMany(s, d, stream, aad, n) == ReceiveMany(s, NextDirection(s, d), tail, [], n)
  {
    hide ReadPacket, NextDirection;
    assert Receive(s, d, stream, aad) == Receive(s, NextDirection(s, d), tail, []);
  }

  /** The counters of a direction count its packets, so each packet has its own key epoch and nonce. */
  lemma {:induction false} CountersAgree(s: Suite, packetKey: seq<Byte>, lengthKey: seq<Byte>, m: nat, n: nat)
    ensures AfterPackets(s, Direction(PacketAt(s, packetKey, m), LengthAt(s, lengthKey, m)), n)
         == Direction(PacketAt(s, packetKey, m + n), LengthAt(s, lengthKey, m + n))
    decreases n
  {
    hide NextPacket, NextLength;
    if n > 0 {
      CountersAgree(s, packetKey, lengthKey, m + 1, n - 1);
    }
  }
}
