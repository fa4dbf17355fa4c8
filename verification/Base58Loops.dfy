/** The base58 loops with their ten-digit chunks, proved against digit-by-digit conversion. */
module Base58Loops {
  import opened Wrappers
  import opened Bytes
  import opened Radix
  import opened Sequences
  import opened Base58

  /** The tenth power of 58: ten digits at once, within 63 bits. */
  const RADIX10: nat := 430804206899405824

  function Pow58(n: nat): (p: nat)
    ensures p > 0
  {
    if n == 0 then 1 else 58 * Pow58(n - 1)
  }

  lemma Pow58Ten()
    ensures Pow58(10) == RADIX10
  {
    assert Pow58(5) == 58 * (58 * (58 * (58 * (58 * Pow58(0)))));
    assert Pow58(10) == 58 * (58 * (58 * (58 * (58 * Pow58(5)))));
  }

  lemma {:induction false} Pow58Grows(m: nat, n: nat)
    requires m <= n
    ensures Pow58(m) <= Pow58(n)
    decreases n - m
  {
    if m < n {
      Pow58Grows(m, n - 1);
    }
  }

  // ----- Encoding -----

  /** The base58 digits of a number, least significant first. */
  function Low(x: nat): (ds: Digits)
    decreases x
  {
    if x == 0 then [] else [x % 58] + Low(x / 58)
  }

  lemma {:induction false} MirroredLow(x: nat)
    ensures Mirrored(Low(x)) == Minimal(x, 58) && InBase(Low(x), 58)
    decreases x
  {
    if x > 0 {
      MirroredLow(x / 58);
      MirroredConcat([x % 58], Low(x / 58));
    }
  }

  /** The digits of what is left when the number has no further chunk. */
  method LastChunk(m0: nat) returns (out: Digits)
    ensures out == Low(m0)
  {
    out := [];
    var m := m0;
    while m > 0
      invariant out + Low(m) == Low(m0)
      decreases m
    {
      ShiftLow(out, m, Low(m0));
      out := out + [m % 58];
      m := m / 58;
    }
    assert out + [] == out;
  }

  lemma ShiftLow(out: Digits, m: nat, all: Digits)
    requires m > 0 && out + Low(m) == all
    ensures (out + [m % 58]) + Low(m / 58) == all
  {
  }

  lemma ChunkStep(q: nat, p: nat, m: nat)
    requires m < 58 * p
    ensures (q * (58 * p) + m) % 58 == m % 58 && (q * (58 * p) + m) / 58 == q * p + m / 58 && m / 58 < p
  {
    Decompose(m, 58);
    assert q * (58 * p) + m == (q * p + m / 58) * 58 + m % 58 by {
      assert q * (58 * p) == q * p * 58;
    }
    Recompose(q * p + m / 58, m % 58, 58);
  }

  /** Ten digits of a chunk, with leading zeros because more digits follow above it. */
  method FullChunk(q: nat, m0: nat) returns (out: Digits)
    requires q > 0 && m0 < RADIX10
    ensures out + Low(q) == Low(q * RADIX10 + m0)
  {
    hide Low, Pow58;
    Pow58Ten();
    out := [];
    var m: U64 := m0;
    ghost var all := Low(q * RADIX10 + m0);
    for i := 0 to 10
      invariant m < Pow58(10 - i)
      invariant out + Low(q * Pow58(10 - i) + m) == all
    {
      Pow58Step(10 - i);
      ChunkStep(q, Pow58(9 - i), m);
      assert q * Pow58(10 - i) + m > 0 by { assert q * Pow58(10 - i) > 0; }
      ShiftLow(out, q * Pow58(10 - i) + m, all);
      out := out + [m % 58];
      m := m / 58;
    }
    Pow58Zero();
    assert q * 1 == q;
  }

  lemma Pow58Step(n: nat)
    requires n > 0
    ensures Pow58(n) == 58 * Pow58(n - 1)
  {
  }

  lemma Pow58Zero()
    ensures Pow58(0) == 1
  {
  }

  /** The digits of a number, taken ten at a time from the low end. */
  method LowDigits(x0: nat) returns (out: Digits)
    ensures out == Low(x0)
  {
    hide Low;
    out := [];
    var x: nat := x0;
    while x > 0
      invariant out + Low(x) == Low(x0)
      decreases x
    {
      var q, m := x / RADIX10, x % RADIX10;
      assert x == q * RADIX10 + m;
      if q == 0 {
        var last := LastChunk(m);
        out := out + last;
        LowZero();
        assert out + [] == out;
      } else {
        var chunk := FullChunk(q, m);
        assert out + (chunk + Low(q)) == (out + chunk) + Low(q);
        out := out + chunk;
      }
      x := q;
    }
    LowZero();
    assert out + [] == out;
  }

  lemma LowZero()
    ensures Low(0) == []
  {
  }

  /** Exchanges the two ends of the answer, then their neighbours, until the middle is reached. */
  method FlipAnswer(answer: array<Byte>)
    modifies answer
    ensures answer[..] == Mirrored(old(answer[..]))
  {
    ghost var was := answer[..];
    var length := answer.Length;
    for i := 0 to length / 2
      invariant answer[i..length - i] == was[i..length - i]
      invariant forall k :: 0 <= k < i || length - i <= k < length ==> answer[k] == Mirrored(was)[k]
    {
      var j := length - 1 - i;
      assert answer[i] == answer[i..length - i][0] && answer[j] == answer[i..length - i][j - i];
      answer[i], answer[j] := answer[j], answer[i];
    }
  }

  lemma MirroredZeros(n: nat)
    ensures Mirrored(ZeroBytes(n)) == ZeroBytes(n)
  {
  }

  lemma ZerosInBase(ds: Digits, n: nat)
    requires InBase(ds, 58)
    ensures InBase(ds + ZeroBytes(n), 58)
  {
  }

  method CountLeadingZeros(b: seq<Byte>) returns (n: nat)
    ensures n == LeadingZeros(b)
  {
    n := 0;
    assert b[0..] == b;
    while n < |b| && b[n] == 0
      invariant 0 <= n <= |b|
      invariant LeadingZeros(b) == n + LeadingZeros(b[n..])
    {
      assert b[n..][1..] == b[n + 1..];
      n := n + 1;
    }
  }

  method EncodeChunked(b: seq<Byte>) returns (s: Text)
    ensures s == Encode(b)
  {
    hide Low, Value, Minimal, LeadingZeros, Char, Mirrored, ZeroBytes;
    var x := Value(b, 256);
    var low := LowDigits(x);
    MirroredLow(x);
    var zeros := CountLeadingZeros(b);
    var answer := low + ZeroBytes(zeros);
    ZerosInBase(low, zeros);
    var out := new Byte[|answer|](i requires 0 <= i < |answer| => Char(answer[i]));
    FlipAnswer(out);
    s := out[..];
    MirroredConcat(low, ZeroBytes(zeros));
    MirroredZeros(zeros);
    RebaseTwice(b, 256, 58);
    ghost var ds := Rebase(b, 256, 58);
    assert Mirrored(answer) == ds;
    forall k | 0 <= k < |answer|
      ensures s[k] == Char(ds[k])
    {
      assert ds[k] == answer[|answer| - 1 - k];
    }
  }

  // ----- Decoding -----

  lemma {:induction false} ValueConcat(a: Digits, b: Digits)
    ensures Value(a + b, 58) == Value(a, 58) * Pow58(|b|) + Value(b, 58)
    decreases |b|
  {
    if b == [] {
      assert a + b == a;
    } else {
      var init, last := b[..|b| - 1], b[|b| - 1];
      assert (a + b)[..|a + b| - 1] == a + init;
      ValueConcat(a, init);
      assert Value(a, 58) * Pow58(|b|) == Value(a, 58) * Pow58(|init|) * 58;
    }
  }

  lemma {:induction false} ValueBound(ds: Digits)
    requires InBase(ds, 58)
    ensures Value(ds, 58) < Pow58(|ds|)
    decreases |ds|
  {
    if ds != [] {
      ValueBound(ds[..|ds| - 1]);
    }
  }

  /** The value of at most ten digits, computed in 64-bit arithmetic, which cannot overflow. */
  method ChunkValue(t: Text) returns (r: Option<U64>)
    requires |t| <= 10
    ensures r.Some? <==> Valid(t)
    ensures r.Some? ==> r.value == Value(ToDigits(t), 58)
  {
    hide Digit, Pow58;
    var total: U64 := 0;
    for i := 0 to |t|
      invariant Valid(t[..i]) && total == Value(ToDigits(t[..i]), 58)
    {
      var tmp := Digit(t[i]);
      if tmp.None? {
        return None;
      }
      assert Valid(t[..i + 1]);
      ghost var ds := ToDigits(t[..i + 1]);
      assert ds[..i] == ToDigits(t[..i]);
      DigitsText(t[..i + 1]);
      ValueBound(ds);
      Pow58Grows(i + 1, 10);
      Pow58Ten();
      total := total * 58 + tmp.value;
    }
    assert t[..|t|] == t;
    return Some(total);
  }

  method DecodeChunked(b: Text) returns (val: seq<Byte>)
    ensures val == Decode(b)
  {
    hide Digit, Pow58, Value, Minimal, LeadingZeros;
    var answer: nat := 0;
    var pos := 0;
    ValueNone(58);
    while pos < |b|
      invariant 0 <= pos <= |b|
      invariant Valid(b[..pos]) && answer == Value(ToDigits(b[..pos]), 58)
    {
      var n := if |b| - pos > 10 then 10 else |b| - pos;
      var t := b[pos..pos + n];
      var total := ChunkValue(t);
      if total.None? {
        InvalidPart(b, pos, pos + n);
        return [];
      }
      assert b[..pos + n] == b[..pos] + t;
      assert Valid(b[..pos + n]);
      assert ToDigits(b[..pos + n]) == ToDigits(b[..pos]) + ToDigits(t);
      ValueConcat(ToDigits(b[..pos]), ToDigits(t));
      answer := answer * Pow58(n) + total.value;
      pos := pos + n;
    }
    assert b[..pos] == b;
    var zeros := CountOnes(b);
    DigitsText(b);
    RebaseTwice(ToDigits(b), 58, 256);
    ValueOfMinimal(answer, 256);
    val := ZeroBytes(zeros) + Minimal(answer, 256);
  }

  lemma InvalidPart(b: Text, lo: nat, hi: nat)
    requires lo <= hi <= |b| && !Valid(b[lo..hi])
    ensures !Valid(b)
  {
    hide Digit;
    var i :| 0 <= i < hi - lo && Digit(b[lo..hi][i]).None?;
    assert b[lo + i] == b[lo..hi][i];
  }

  lemma OneIsZero(c: Byte)
    ensures c == FIRST <==> Digit(c) == Some(0)
  {
  }

  method CountOnes(b: Text) returns (n: nat)
    requires Valid(b)
    ensures n == LeadingZeros(ToDigits(b))
  {
    hide Digit;
    n := 0;
    assert b[0..] == b;
    while n < |b| && b[n] == FIRST
      invariant 0 <= n <= |b|
      invariant LeadingZeros(ToDigits(b)) == n + LeadingZeros(ToDigits(b)[n..])
    {
      OneIsZero(b[n]);
      assert ToDigits(b)[n..][1..] == ToDigits(b)[n + 1..];
      n := n + 1;
    }
    if n < |b| {
      OneIsZero(b[n]);
      assert ToDigits(b)[n..][0] == Digit(b[n]).value;
    }
  }
}
