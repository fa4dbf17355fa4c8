/** A peer of the encrypted transport: its ciphers, its connection, and the handshake's scan. */
module TransportPeer {
  import opened Wrappers
  import opened Bytes
  import opened Ciphers
  import opened Transport

  const GARBAGE_TERM: nat := 16
  const MAX_GARBAGE: nat := 4095

  /** The values derived from the shared secret for the network: one per label. */
  datatype Secrets = Secrets(initiatorL: seq<Byte>, initiatorP: seq<Byte>, responderL: seq<Byte>, responderP: seq<Byte>,
                             terminators: seq<Byte>)

  function FirstDirection(packetKey: seq<Byte>, lengthKey: seq<Byte>): Direction {
    Direction(PacketState(packetKey, 0), FirstLength(lengthKey))
  }

  /** The direction a peer in the given role sends in. */
  function Sending(k: Secrets, initiating: bool): Direction {
    if initiating then FirstDirection(k.initiatorP, k.initiatorL) else FirstDirection(k.responderP, k.responderL)
  }

  function SentTerminator(k: Secrets, initiating: bool): seq<Byte>
    requires |k.terminators| == 2 * GARBAGE_TERM
  {
    if initiating then k.terminators[..GARBAGE_TERM] else k.terminators[GARBAGE_TERM..]
  }

  class Peer {
    const suite: Suite
    var sendL: FSChaCha20
    var sendP: FSChaCha20Poly1305
    var recvL: FSChaCha20
    var recvP: FSChaCha20Poly1305
    var sendTerm: seq<Byte>
    var recvTerm: seq<Byte>
    // The connection: everything written so far, and what has not been read yet.
    var outgoing: seq<Byte>
    var incoming: seq<Byte>

    ghost predicate Valid()
      reads this
    {
      && sendL != recvL && sendP != recvP
      && sendL.suite == suite && sendP.suite == suite && recvL.suite == suite && recvP.suite == suite
    }

    ghost function SendState(): Direction
      reads this, sendP, sendL
    {
      Direction(sendP.State(), sendL.State())
    }

    ghost function RecvState(): Direction
      reads this, recvP, recvL
    {
      Direction(recvP.State(), recvL.State())
    }

    /** The peer's ciphers and terminators for its role: each sends the way the other receives. */
    constructor CreateV2Ciphers(suite: Suite, k: Secrets, initiating: bool)
      requires |k.terminators| == 2 * GARBAGE_TERM
      ensures Valid() && this.suite == suite && outgoing == [] && incoming == []
      ensures fresh(sendL) && fresh(sendP) && fresh(recvL) && fresh(recvP)
      ensures SendState() == Sending(k, initiating) && RecvState() == Sending(k, !initiating)
      ensures sendTerm == SentTerminator(k, initiating) && recvTerm == SentTerminator(k, !initiating)
    {
      this.suite := suite;
      outgoing, incoming := [], [];
      if initiating {
        sendL := new FSChaCha20(suite, k.initiatorL);
        sendP := new FSChaCha20Poly1305(suite, k.initiatorP);
        sendTerm := k.terminators[..GARBAGE_TERM];
        recvL := new FSChaCha20(suite, k.responderL);
        recvP := new FSChaCha20Poly1305(suite, k.responderP);
        recvTerm := k.terminators[GARBAGE_TERM..];
      } else {
        sendL := new FSChaCha20(suite, k.responderL);
        sendP := new FSChaCha20Poly1305(suite, k.responderP);
        sendTerm := k.terminators[GARBAGE_TERM..];
        recvL := new FSChaCha20(suite, k.initiatorL);
        recvP := new FSChaCha20Poly1305(suite, k.initiatorP);
        recvTerm := k.terminators[..GARBAGE_TERM];
      }
    }

    method V2EncPacket(contents: seq<Byte>, aad: seq<Byte>, ignore: bool) returns (r: Result<seq<Byte>, Error>)
      requires Valid()
      modifies this`outgoing, sendL, sendP
      ensures Valid()
      ensures |contents| > 0xff_ffff ==>
                r == Err(ContentTooLong) && SendState() == old(SendState()) && outgoing == old(outgoing)
      ensures |contents| <= 0xff_ffff ==>
                var bytes := Emit(suite, old(SendState()), Packet(contents, aad, ignore));
                r == Ok(bytes) && outgoing == old(outgoing) + bytes && SendState() == NextDirection(suite, old(SendState()))
    {
      hide Nonce, XorBytes, StreamBytes, LittleEndian, NextPacket, NextLength;
      if |contents| > MAX_CONTENT {
        return Err(ContentTooLong);
      }
      var header: Byte := if ignore then IGNORE_BIT else 0;
      var plaintext := [header] + contents;
      var sealed := sendP.Crypt(aad, plaintext, false);
      var field := sendL.Crypt(LengthBytes(|contents|));
      var packet := field + sealed.value;
      outgoing := outgoing + packet;
      return Ok(packet);
    }

    /** Takes bytes off the connection; everything left is lost when there are too few. */
    method Take(n: nat) returns (r: Option<seq<Byte>>)
      modifies this`incoming
      ensures |old(incoming)| < n ==> r == None && incoming == []
      ensures |old(incoming)| >= n ==> r == Some(old(incoming)[..n]) && incoming == old(incoming)[n..]
    {
      if |incoming| < n {
        incoming := [];
        return None;
      }
      r := Some(incoming[..n]);
      incoming := incoming[n..];
    }

    /** One turn of the receive loop. */
    method ReceiveOne(aad: seq<Byte>) returns (r: Result<Packet, Error>)
      requires Valid()
      modifies this`incoming, recvL, recvP
      ensures Valid()
      ensures Reading(r, RecvState(), incoming) == ReadPacket(suite, old(RecvState()), old(incoming), aad)
    {
      hide Nonce, XorBytes, StreamBytes, Uint32, NextPacket, NextLength;
      var field := Take(LENGTH_FIELD);
      if field.None? {
        return Err(FailedToReceive);
      }
      var plain := recvL.Crypt(field.value);
      var n := Uint32(plain + [0]);
      if n > MAX_CONTENT {
        return Err(ContentTooLong);
      }
      var sealed := Take(HEADER + n + EXPANSION);
      if sealed.None? {
        return Err(FailedToReceive);
      }
      var text := recvP.Crypt(aad, sealed.value, true);
      if text.None? || |text.value| == 0 {
        return Err(FailedToOpen);
      }
      return Ok(Packet(text.value[1..], aad, text.value[0] >= IGNORE_BIT));
    }

    method V2ReceivePacket(aad: seq<Byte>) returns (r: Result<seq<Byte>, Error>)
      requires Valid()
      modifies this`incoming, recvL, recvP
      ensures Valid()
      ensures var spec := Receive(suite, old(RecvState()), old(incoming), aad);
        && RecvState() == spec.after && incoming == spec.rest
        && r == if spec.result.Ok? then Ok(spec.result.value.contents) else Err(spec.result.error)
    {
      hide ReadPacket;
      var data := aad;
      ghost var spec := Receive(suite, RecvState(), incoming, aad);
      while true
        invariant Valid()
        invariant Receive(suite, RecvState(), incoming, data) == spec
        decreases |incoming|
      {
        var one := ReceiveOne(data);
        if one.Err? {
          return Err(one.error);
        }
        data := [];
        if !one.value.ignore {
          return Ok(one.value.contents);
        }
      }
    }

    /** Reads until the last sixteen bytes are the terminator; the bytes before it are the garbage. */
    method SkipGarbage() returns (r: Result<seq<Byte>, Error>)
      requires Valid()
      modifies this`incoming
      ensures Valid()
      ensures var found := Scan(old(incoming), recvTerm, 0);
        && (found.Ok? ==> r == Ok(old(incoming)[..found.value]) && incoming == old(incoming)[found.value + GARBAGE_TERM..])
        && (found.Err? ==> r == Err(found.error))
    {
      ghost var all := incoming;
      var first := Take(GARBAGE_TERM);
      if first.None? {
        return Err(FailedToReceive);
      }
      var garbage := first.value;
      var i := 0;
      while i < MAX_GARBAGE
        invariant 0 <= i <= MAX_GARBAGE && i + GARBAGE_TERM <= |all|
        invariant garbage == all[..i + GARBAGE_TERM] && incoming == all[i + GARBAGE_TERM..]
        invariant Scan(all, recvTerm, 0) == Scan(all, recvTerm, i)
        invariant recvTerm == old(recvTerm)
      {
        assert garbage[i..] == all[i..i + GARBAGE_TERM];
        if garbage[i..] == recvTerm {
          assert garbage[..i] == all[..i];
          return Ok(garbage[..i]);
        }
        var more := Take(1);
        if more.None? {
          return Err(FailedToReceive);
        }
        garbage := garbage + more.value;
        i := i + 1;
      }
      return Err(NoTerminator);
    }
  }

  // ----- The scan for the garbage terminator -----

  predicate TerminatorAt(stream: seq<Byte>, term: seq<Byte>, p: nat) {
    p + 16 <= |stream| && stream[p..p + 16] == term
  }

  /** The position of the first terminator at or after `p`, as far as the scan looks. */
  function Scan(stream: seq<Byte>, term: seq<Byte>, p: nat): (r: Result<nat, Error>)
    ensures r.Ok? ==> p <= r.value && r.value + GARBAGE_TERM <= |stream|
    decreases |stream| + 1 - p
  {
    if p + GARBAGE_TERM > |stream| then Err(FailedToReceive)
    else if p >= MAX_GARBAGE then Err(NoTerminator)
    else if TerminatorAt(stream, term, p) then Ok(p)
    else Scan(stream, term, p + 1)
  }

  lemma {:induction false} ScanFinds(stream: seq<Byte>, term: seq<Byte>, p: nat, at: nat)
    requires p <= at && TerminatorAt(stream, term, at)
    requires forall q :: p <= q < at ==> !TerminatorAt(stream, term, q)
    ensures Scan(stream, term, p) == if at < MAX_GARBAGE then Ok(at) else Err(NoTerminator)
    decreases at - p
  {
    hide TerminatorAt;
    if p < at {
      TerminatorBound(stream, term, at);
      ScanFinds(stream, term, p + 1, at);
    } else {
      TerminatorBound(stream, term, at);
    }
  }

  lemma TerminatorBound(stream: seq<Byte>, term: seq<Byte>, p: nat)
    requires TerminatorAt(stream, term, p)
    ensures p + GARBAGE_TERM <= |stream|
  {
  }

  /** The terminator does not appear before its place behind the garbage. */
  ghost predicate Unambiguous(garbage: seq<Byte>, term: seq<Byte>, rest: seq<Byte>) {
    forall q :: 0 <= q < |garbage| ==> !TerminatorAt(garbage + term + rest, term, q)
  }

  /** What the scan finds is the first terminator, and within its limit. */
  lemma {:induction false} ScanIsFirst(stream: seq<Byte>, term: seq<Byte>, p: nat)
    requires Scan(stream, term, p).Ok?
    ensures Scan(stream, term, p).value < MAX_GARBAGE
    ensures forall q :: p <= q < Scan(stream, term, p).value ==> !TerminatorAt(stream, term, q)
    decreases |stream| + 1 - p
  {
    hide TerminatorAt;
    if !TerminatorAt(stream, term, p) {
      ScanIsFirst(stream, term, p + 1);
    }
  }

  /**
   The scan splits the stream at the terminator exactly when the garbage is at most 4094 bytes
   long and the terminator does not appear earlier. Garbage of 4095 bytes, which the sender may
   choose, is never recognized.
   */
  lemma ScanExact(garbage: seq<Byte>, term: seq<Byte>, rest: seq<Byte>)
    requires |term| == 16
    ensures Scan(garbage + term + rest, term, 0) == Ok(|garbage|) <==>
            |garbage| < 4095 && Unambiguous(garbage, term, rest)
    ensures Unambiguous(garbage, term, rest) && |garbage| >= 4095 ==>
              Scan(garbage + term + rest, term, 0) == Err(NoTerminator)
  {
    hide Scan;
    var stream := garbage + term + rest;
    assert stream[|garbage|..|garbage| + GARBAGE_TERM] == term;
    if Unambiguous(garbage, term, rest) {
      ScanFinds(stream, term, 0, |garbage|);
    }
    if Scan(stream, term, 0) == Ok(|garbage|) {
      ScanIsFirst(stream, term, 0);
    }
  }

  function Ones(n: nat): (bs: seq<Byte>)
    ensures |bs| == n
  {
    seq(n, _ => 1)
  }

  /** A sender that picks the longest garbage it is allowed to send is not understood. */
  lemma LongestGarbageLost(rest: seq<Byte>)
    ensures Unambiguous(ZeroBytes(4095), Ones(16), rest)
    ensures Scan(ZeroBytes(4095) + Ones(16) + rest, Ones(16), 0) == Err(NoTerminator)
  {
    hide Scan;
    var garbage, term := ZeroBytes(MAX_GARBAGE), Ones(GARBAGE_TERM);
    var stream := garbage + term + rest;
    forall q | 0 <= q < |garbage|
      ensures !TerminatorAt(stream, term, q)
    {
      assert stream[q] == 0 && term[0] == 1;
      assert q + GARBAGE_TERM <= |stream| && stream[q..q + GARBAGE_TERM][0] == stream[q];
    }
    ScanExact(garbage, term, rest);
  }

  /**
   The end of the handshake: a peer sends garbage, its terminator and its version packet,
   authenticated with the garbage. The other finds the terminator exactly when the garbage is short
   enough and does not hold it already, and then understands the packet with their ciphers agreeing.
   */
  lemma HandshakeDelivers(s: Suite, k: Secrets, initiating: bool, garbage: seq<Byte>, version: seq<Byte>, rest: seq<Byte>)
    requires Lawful(s) && |k.terminators| == 32 && |version| <= 0xff_ffff
    ensures var d, term := Sending(k, initiating), SentTerminator(k, initiating);
      var packet := Packet(version, garbage, false);
      var tail := Emit(s, d, packet) + rest;
      && (Scan(garbage + term + tail, term, 0) == Ok(|garbage|) <==>
            |garbage| < 4095 && Unambiguous(garbage, term, tail))
      && Receive(s, d, tail, garbage) == Reading(Ok(packet), NextDirection(s, d), rest)
  {
    hide Scan, Emit, ReadPacket, Lawful, NextDirection, Unambiguous, Sending;
    var d, term := Sending(k, initiating), SentTerminator(k, initiating);
    var packet := Packet(version, garbage, false);
    ScanExact(garbage, term, Emit(s, d, packet) + rest);
    ReadEmitted(s, d, packet, rest);
  }
}
