/**
 The rekeying ciphers of the encrypted transport (BIP 324, sections "Rekeying wrappers:
 FSChaCha20Poly1305 and FSChaCha20"). The primitives are parameters: an authenticated cipher
 whose opening undoes its sealing, and a keystream.
 */
module Ciphers {
  import opened Wrappers
  import opened Bytes
  import opened PowersOfTwo

  const REKEY_INTERVAL: nat := 224
  const KEY_SIZE: nat := 32
  const EXPANSION: nat := 16

  datatype Suite = Suite(
    seal: (seq<Byte>, seq<Byte>, seq<Byte>, seq<Byte>) -> seq<Byte>,
    open: (seq<Byte>, seq<Byte>, seq<Byte>, seq<Byte>) -> Option<seq<Byte>>,
    stream: (seq<Byte>, seq<Byte>, nat) -> Byte)

  /** Opening undoes sealing with the same key, nonce and associated data; sealing adds a tag. */
  ghost predicate Lawful(s: Suite) {
    forall key, nonce, text, aad ::
      && |s.seal(key, nonce, text, aad)| == |text| + 16
      && s.open(key, nonce, s.seal(key, nonce, text, aad), aad) == Some(text)
  }

  // ----- Packets -----

  /** The message number under the current key and the number of rekeyings, little-endian. */
  function Nonce(n: nat): (nonce: seq<Byte>)
    ensures |nonce| == 12
  {
    LittleEndian(n % REKEY_INTERVAL, 4) + LittleEndian(n / REKEY_INTERVAL, 8)
  }

  function RekeyNonce(n: nat): (nonce: seq<Byte>)
    ensures |nonce| == 12
  {
    [0xff, 0xff, 0xff, 0xff] + Nonce(n)[4..]
  }

  function Prefix(bs: seq<Byte>, n: nat): seq<Byte> {
    if n <= |bs| then bs[..n] else bs
  }

  datatype PacketState = PacketState(key: seq<Byte>, ctr: nat)

  /** The cipher state after one more packet, rekeyed when the counter reaches the interval. */
  function NextPacket(s: Suite, st: PacketState): PacketState {
    var ctr := st.ctr + 1;
    if ctr % REKEY_INTERVAL == 0 then
      PacketState(Prefix(s.seal(st.key, RekeyNonce(st.ctr), ZeroBytes(32), []), KEY_SIZE), ctr)
    else PacketState(st.key, ctr)
  }

  class FSChaCha20Poly1305 {
    const suite: Suite
    var key: seq<Byte>
    var packetCtr: nat

    function State(): PacketState
      reads this
    {
      PacketState(key, packetCtr)
    }

    constructor (suite: Suite, initialKey: seq<Byte>)
      ensures this.suite == suite && State() == PacketState(initialKey, 0)
    {
      this.suite, key, packetCtr := suite, initialKey, 0;
    }

    /** Seals or opens one text; a failed opening leaves the state as it was. */
    method Crypt(aad: seq<Byte>, text: seq<Byte>, decrypt: bool) returns (r: Option<seq<Byte>>)
      modifies this
      ensures r == if decrypt then suite.open(old(key), Nonce(old(packetCtr)), text, aad)
                   else Some(suite.seal(old(key), Nonce(old(packetCtr)), text, aad))
      ensures State() == if r.Some? then NextPacket(suite, old(State())) else old(State())
    {
      hide Nonce;
      var nonce := Nonce(packetCtr);
      if decrypt {
        r := suite.open(key, nonce, text, aad);
        if r.None? {
          return None;
        }
      } else {
        r := Some(suite.seal(key, nonce, text, aad));
      }
      packetCtr := packetCtr + 1;
      if packetCtr % REKEY_INTERVAL == 0 {
        var rekeyNonce := [0xff, 0xff, 0xff, 0xff] + nonce[4..];
        key := Prefix(suite.seal(key, rekeyNonce, ZeroBytes(32), []), KEY_SIZE);
      }
    }
  }

  // ----- Lengths -----

  datatype LengthState = LengthState(key: seq<Byte>, nonce: seq<Byte>, pos: nat, ctr: nat)

  function StreamBytes(s: Suite, st: LengthState, n: nat): (bs: seq<Byte>)
    ensures |bs| == n
  {
    seq<Byte>(n, i requires 0 <= i < n => s.stream(st.key, st.nonce, st.pos + i))
  }

  function LengthNonce(rekeys: nat): (nonce: seq<Byte>)
    ensures |nonce| == 12
  {
    [0, 0, 0, 0] + LittleEndian(rekeys, 8)
  }

  /** The state after a chunk of `n` bytes; the next key is the keystream that follows it. */
  function NextLength(s: Suite, st: LengthState, n: nat): LengthState {
    var ctr, moved := st.ctr + 1, st.(pos := st.pos + n);
    if ctr % REKEY_INTERVAL == 0 then
      LengthState(StreamBytes(s, moved, KEY_SIZE), LengthNonce(ctr / REKEY_INTERVAL), 0, ctr)
    else moved.(ctr := ctr)
  }

  /** The bits of two numbers added without carries. */
  function XorDigits(a: nat, b: nat, n: nat): (r: nat)
    ensures r < Pow2(n)
    decreases n
  {
    if n == 0 then 0 else 2 * XorDigits(a / 2, b / 2, n - 1) + (if a % 2 == b % 2 then 0 else 1)
  }

  function XorByte(a: Byte, b: Byte): Byte {
    ByteWidth();
    XorDigits(a, b, 8)
  }

  lemma ByteWidth()
    ensures Pow2(8) == 256
  {
    assert Pow2(4) == 2 * (2 * (2 * (2 * Pow2(0))));
    assert Pow2(8) == 2 * (2 * (2 * (2 * Pow2(4))));
  }

  function XorBytes(text: seq<Byte>, stream: seq<Byte>): (r: seq<Byte>)
    requires |text| == |stream|
    ensures |r| == |text|
  {
    seq(|text|, i requires 0 <= i < |text| => XorByte(text[i], stream[i]))
  }

  lemma LastDigit(x: nat, c: nat)
    requires c < 2
    ensures (2 * x + c) / 2 == x && (2 * x + c) % 2 == c
  {
  }

  lemma {:induction false} XorDigitsTwice(a: nat, b: nat, n: nat)
    requires a < Pow2(n)
    ensures XorDigits(XorDigits(a, b, n), b, n) == a
    decreases n
  {
    if n > 0 {
      var x := XorDigits(a / 2, b / 2, n - 1);
      XorDigitsTwice(a / 2, b / 2, n - 1);
      LastDigit(x, if a % 2 == b % 2 then 0 else 1);
    }
  }

  lemma {:induction false} XorDigitsZero(b: nat, n: nat)
    requires b < Pow2(n)
    ensures XorDigits(0, b, n) == b
    decreases n
  {
    if n > 0 {
      XorDigitsZero(b / 2, n - 1);
    }
  }

  lemma XorByteTwice(a: Byte, b: Byte)
    ensures XorByte(XorByte(a, b), b) == a
  {
    hide XorDigits;
    ByteWidth();
    XorDigitsTwice(a, b, 8);
  }

  /** Adding the same keystream twice gives the text back. */
  lemma XorTwice(text: seq<Byte>, stream: seq<Byte>)
    requires |text| == |stream|
    ensures XorBytes(XorBytes(text, stream), stream) == text
  {
    hide XorByte;
    forall i | 0 <= i < |text|
      ensures XorBytes(XorBytes(text, stream), stream)[i] == text[i]
    {
      XorByteTwice(text[i], stream[i]);
    }
  }

  class FSChaCha20 {
    const suite: Suite
    var key: seq<Byte>
    var nonce: seq<Byte>
    var pos: nat
    var chunkCtr: nat

    function State(): LengthState
      reads this
    {
      LengthState(key, nonce, pos, chunkCtr)
    }

    constructor (suite: Suite, initialKey: seq<Byte>)
      ensures this.suite == suite && State() == FirstLength(initialKey)
    {
      this.suite, key, nonce, pos, chunkCtr := suite, initialKey, LengthNonce(0), 0, 0;
    }

    /** The next bytes of the keystream of the current key and nonce. */
    method XorKeyStream(text: seq<Byte>) returns (dst: seq<Byte>)
      modifies this`pos
      ensures dst == XorBytes(text, StreamBytes(suite, old(State()), |text|))
      ensures pos == old(pos) + |text|
    {
      hide XorByte;
      dst := [];
      for i := 0 to |text|
        invariant pos == old(pos)
        invariant |dst| == i
        invariant forall j :: 0 <= j < i ==> dst[j] == XorByte(text[j], suite.stream(key, nonce, pos + j))
      {
        dst := dst + [XorByte(text[i], suite.stream(key, nonce, pos + i))];
      }
      pos := pos + |text|;
    }

    method Crypt(text: seq<Byte>) returns (dst: seq<Byte>)
      modifies this
      ensures dst == XorBytes(text, StreamBytes(suite, old(State()), |text|))
      ensures State() == NextLength(suite, old(State()), |text|)
    {
      hide XorByte, LengthNonce;
      dst := XorKeyStream(text);
      chunkCtr := chunkCtr + 1;
      if chunkCtr % REKEY_INTERVAL == 0 {
        ghost var moved := State();
        var newKey := XorKeyStream(ZeroBytes(KEY_SIZE));
        ZeroXor(StreamBytes(suite, moved, KEY_SIZE));
        assert StreamBytes(suite, moved, KEY_SIZE) == StreamBytes(suite, moved.(ctr := chunkCtr - 1), KEY_SIZE);
        key, nonce, pos := newKey, LengthNonce(chunkCtr / REKEY_INTERVAL), 0;
      }
    }
  }

  function FirstLength(key: seq<Byte>): LengthState {
    LengthState(key, LengthNonce(0), 0, 0)
  }

  lemma ZeroXor(stream: seq<Byte>)
    ensures XorBytes(ZeroBytes(|stream|), stream) == stream
  {
    hide XorDigits;
    ByteWidth();
    forall i | 0 <= i < |stream|
      ensures XorByte(0, stream[i]) == stream[i]
    {
      XorDigitsZero(stream[i], 8);
    }
  }

  // ----- Whole runs -----

  /** The packet cipher after `n` packets. */
  function PacketAt(s: Suite, key: seq<Byte>, n: nat): PacketState {
    if n == 0 then PacketState(key, 0) else NextPacket(s, PacketAt(s, key, n - 1))
  }

  /** The packet key after a number of rekeyings. */
  function PacketKey(s: Suite, key: seq<Byte>, epoch: nat): seq<Byte> {
    if epoch == 0 then key
    else
      var previous := PacketKey(s, key, epoch - 1);
      var last := epoch * 224 - 1;
      Prefix(s.seal(previous, RekeyNonce(last), ZeroBytes(32), []), 32)
  }

  /** The n-th packet uses the key of its epoch: the key changes exactly every 224 packets. */
  lemma {:induction false} PacketKeyByEpoch(s: Suite, key: seq<Byte>, n: nat)
    ensures PacketAt(s, key, n) == PacketState(PacketKey(s, key, n / 224), n)
    decreases n
  {
    hide RekeyNonce, Prefix;
    if n > 0 {
      PacketKeyByEpoch(s, key, n - 1);
      EpochStep(n);
    }
  }

  lemma EpochStep(n: nat)
    requires n > 0
    ensures n % REKEY_INTERVAL == 0 ==>
              (n - 1) / REKEY_INTERVAL == n / REKEY_INTERVAL - 1 && n == n / REKEY_INTERVAL * REKEY_INTERVAL
    ensures n % REKEY_INTERVAL != 0 ==> (n - 1) / REKEY_INTERVAL == n / REKEY_INTERVAL
  {
  }

  lemma LittleEndianInjective(a: nat, b: nat, width: nat)
    requires a < Pow256(width) && b < Pow256(width) && LittleEndian(a, width) == LittleEndian(b, width)
    ensures a == b
  {
    LittleEndianRoundTrip(a, width);
    LittleEndianRoundTrip(b, width);
  }

  /** Every packet key after the first has thirty-two bytes. */
  lemma PacketKeySize(s: Suite, key: seq<Byte>, epoch: nat)
    requires Lawful(s) && |key| == 32
    ensures |PacketKey(s, key, epoch)| == 32
  {
    hide RekeyNonce;
    if epoch > 0 {
      var previous, last := PacketKey(s, key, epoch - 1), RekeyNonce(epoch * 224 - 1);
      assert |s.seal(previous, last, ZeroBytes(32), [])| == 48;
    }
  }

  /**
   The nonces as numbers: four bytes of position within the epoch, all ones for the rekeying itself
   and zero in the length cipher, then eight bytes of epoch.
   */
  lemma NonceLayout(n: nat)
    requires n / 224 < Pow256(8)
    ensures FromLittleEndian(Nonce(n)[..4]) == n % 224 && FromLittleEndian(Nonce(n)[4..]) == n / 224
    ensures FromLittleEndian(RekeyNonce(n)[..4]) == 0xffff_ffff && FromLittleEndian(RekeyNonce(n)[4..]) == n / 224
    ensures LengthNonce(n / 224)[..4] == [0, 0, 0, 0] && FromLittleEndian(LengthNonce(n / 224)[4..]) == n / 224
  {
    hide LittleEndian, FromLittleEndian;
    Pow256Values();
    LittleEndianRoundTrip(n % 224, 4);
    LittleEndianRoundTrip(n / 224, 8);
    AllOnes();
    assert Nonce(n)[..4] == LittleEndian(n % 224, 4) && Nonce(n)[4..] == LittleEndian(n / 224, 8);
    assert RekeyNonce(n)[..4] == [0xff, 0xff, 0xff, 0xff] && RekeyNonce(n)[4..] == Nonce(n)[4..];
    assert LengthNonce(n / 224)[4..] == LittleEndian(n / 224, 8);
  }

  /** No two packets share both the key epoch and the nonce. */
  lemma NonceUnique(m: nat, n: nat)
    requires m / 224 == n / 224 && Nonce(m) == Nonce(n)
    ensures m == n
  {
    hide LittleEndian;
    Pow256Values();
    var a, b := m % REKEY_INTERVAL, n % REKEY_INTERVAL;
    assert Nonce(m)[..4] == LittleEndian(a, 4) && Nonce(n)[..4] == LittleEndian(b, 4);
    LittleEndianInjective(a, b, 4);
  }

  /** A rekeying nonce is never a packet nonce, and no two epochs share it. */
  lemma RekeyNonceUnique(m: nat, n: nat)
    ensures RekeyNonce(m) != Nonce(n)
    ensures m / 224 < Pow256(8) && n / 224 < Pow256(8) && RekeyNonce(m) == RekeyNonce(n) ==> m / 224 == n / 224
  {
    hide LittleEndian;
    Pow256Values();
    var c := n % REKEY_INTERVAL;
    if RekeyNonce(m) == Nonce(n) {
      assert RekeyNonce(m)[..4] == [0xff, 0xff, 0xff, 0xff];
      assert Nonce(n)[..4] == LittleEndian(c, 4);
      LittleEndianRoundTrip(c, 4);
      AllOnes();
    }
    if m / REKEY_INTERVAL < Pow256(8) && n / REKEY_INTERVAL < Pow256(8) && RekeyNonce(m) == RekeyNonce(n) {
      assert RekeyNonce(m)[4..] == Nonce(m)[4..] && RekeyNonce(n)[4..] == Nonce(n)[4..];
      assert Nonce(m)[4..] == LittleEndian(m / REKEY_INTERVAL, 8) && Nonce(n)[4..] == LittleEndian(n / REKEY_INTERVAL, 8);
      LittleEndianInjective(m / REKEY_INTERVAL, n / REKEY_INTERVAL, 8);
    }
  }

  lemma AllOnes()
    ensures FromLittleEndian([0xff, 0xff, 0xff, 0xff]) == 0xffff_ffff
  {
    var ones: seq<Byte> := [0xff, 0xff, 0xff, 0xff];
    assert ones[1..] == [0xff, 0xff, 0xff] && ones[1..][1..] == [0xff, 0xff] && ones[1..][1..][1..] == [0xff];
    assert FromLittleEndian([0xff]) == 0xff + 256 * FromLittleEndian([]);
    assert FromLittleEndian([0xff, 0xff]) == 0xffff;
    assert FromLittleEndian([0xff, 0xff, 0xff]) == 0xff_ffff;
  }

  const CHUNK: nat := 3

  /** The length cipher after `n` chunks of three bytes. */
  function LengthAt(s: Suite, key: seq<Byte>, n: nat): LengthState {
    if n == 0 then FirstLength(key) else NextLength(s, LengthAt(s, key, n - 1), CHUNK)
  }

  function LengthKey(s: Suite, key: seq<Byte>, epoch: nat): seq<Byte> {
    if epoch == 0 then key
    else
      var last := LengthState(LengthKey(s, key, epoch - 1), LengthNonce(epoch - 1), 3 * 224, 0);
      StreamBytes(s, last, 32)
  }

  /** The n-th chunk starts at three times its number within its epoch, under the epoch's key and nonce. */
  lemma {:induction false} LengthByEpoch(s: Suite, key: seq<Byte>, n: nat)
    ensures LengthAt(s, key, n)
         == LengthState(LengthKey(s, key, n / 224), LengthNonce(n / 224), 3 * (n % 224), n)
    decreases n
  {
    hide LengthNonce;
    if n > 0 {
      LengthByEpoch(s, key, n - 1);
      EpochStep(n);
      var before := LengthAt(s, key, n - 1);
      if n % REKEY_INTERVAL == 0 {
        LastChunk(n);
        var epoch := n / REKEY_INTERVAL;
        var moved := before.(pos := before.pos + CHUNK);
        var last := LengthState(LengthKey(s, key, epoch - 1), LengthNonce(epoch - 1), CHUNK * REKEY_INTERVAL, 0);
        assert StreamBytes(s, moved, KEY_SIZE) == StreamBytes(s, last, KEY_SIZE);
      } else {
        LaterChunk(n);
      }
    }
  }

  lemma LastChunk(n: nat)
    requires n > 0 && n % REKEY_INTERVAL == 0
    ensures (n - 1) % REKEY_INTERVAL == REKEY_INTERVAL - 1
  {
  }

  lemma LaterChunk(n: nat)
    requires n > 0 && n % REKEY_INTERVAL != 0
    ensures (n - 1) % REKEY_INTERVAL == n % REKEY_INTERVAL - 1
  {
  }

  /** The keystream positions that chunk `n` of a length cipher uses under its epoch's key. */
  predicate UsesPosition(n: nat, p: nat) {
    3 * (n % 224) <= p < 3 * (n % 224) + 3
  }

  /** Within an epoch no keystream byte serves two chunks, nor a chunk and the next key. */
  lemma KeystreamUnique(m: nat, n: nat, p: nat)
    requires m / 224 == n / 224 && UsesPosition(m, p) && UsesPosition(n, p)
    ensures m == n && p < 3 * 224
  {
    SameRemainder(m, n);
  }

  lemma SameRemainder(m: nat, n: nat)
    requires m / REKEY_INTERVAL == n / REKEY_INTERVAL && m % REKEY_INTERVAL == n % REKEY_INTERVAL
    ensures m == n
  {
  }
}
