/**
 Base58: byte strings written as numbers in base 58, ten digits at a time. Leading zero bytes
 become leading '1' characters and back.
 */
module Base58 {
  import opened Wrappers
  import opened Bytes
  import opened Radix

  type Text = seq<Byte>

  const FIRST: Byte := 49

  /** The alphabet: 1-9, A-H, J-N, P-Z, a-k, m-z. */
  function Char(d: nat): Byte
    requires d < 58
  {
    if d < 9 then 49 + d
    else if d < 17 then 65 + (d - 9)
    else if d < 22 then 74 + (d - 17)
    else if d < 33 then 80 + (d - 22)
    else if d < 44 then 97 + (d - 33)
    else 109 + (d - 44)
  }

  /** The digit of a character, if it is in the alphabet. */
  function Digit(c: Byte): Option<nat> {
    if 49 <= c <= 57 then Some(c - 49)
    else if 65 <= c <= 72 then Some(c - 65 + 9)
    else if 74 <= c <= 78 then Some(c - 74 + 17)
    else if 80 <= c <= 90 then Some(c - 80 + 22)
    else if 97 <= c <= 107 then Some(c - 97 + 33)
    else if 109 <= c <= 122 then Some(c - 109 + 44)
    else None
  }

  lemma DigitChar(c: Byte, d: nat)
    ensures Digit(c) == Some(d) <==> d < 58 && Char(d) == c
  {
  }

  predicate Valid(s: Text) {
    forall i :: 0 <= i < |s| ==> Digit(s[i]).Some?
  }

  function ToDigits(s: Text): (ds: Digits)
    requires Valid(s)
    ensures |ds| == |s|
  {
    seq(|s|, i requires 0 <= i < |s| => Digit(s[i]).value)
  }

  function ToText(ds: Digits): (s: Text)
    requires InBase(ds, 58)
    ensures |s| == |ds|
  {
    seq<Byte>(|ds|, i requires 0 <= i < |ds| => Char(ds[i]))
  }

  lemma TextDigits(ds: Digits)
    requires InBase(ds, 58)
    ensures Valid(ToText(ds)) && ToDigits(ToText(ds)) == ds
  {
    hide Digit, Char;
    forall i | 0 <= i < |ds|
      ensures Digit(ToText(ds)[i]) == Some(ds[i])
    {
      DigitChar(Char(ds[i]), ds[i]);
    }
  }

  lemma DigitsText(s: Text)
    requires Valid(s)
    ensures InBase(ToDigits(s), 58) && ToText(ToDigits(s)) == s
  {
    hide Digit, Char;
    forall i | 0 <= i < |s|
      ensures ToDigits(s)[i] < 58 && Char(ToDigits(s)[i]) == s[i]
    {
      DigitChar(s[i], Digit(s[i]).value);
    }
  }

  function Encode(b: seq<Byte>): Text {
    RebaseTwice(b, 256, 58);
    ToText(Rebase(b, 256, 58))
  }

  /** The empty string stands for invalid input as well as for empty input. */
  function Decode(s: Text): seq<Byte> {
    if !Valid(s) then []
    else
      DigitsText(s);
      RebaseTwice(ToDigits(s), 58, 256);
      Rebase(ToDigits(s), 58, 256)
  }

  /** Decoding undoes encoding on every byte string. */
  lemma DecodeEncode(b: seq<Byte>)
    ensures Decode(Encode(b)) == b
  {
    hide Rebase, ToText, ToDigits, Valid;
    RebaseTwice(b, 256, 58);
    TextDigits(Rebase(b, 256, 58));
  }

  /** Encoding undoes decoding on every string over the alphabet. */
  lemma EncodeDecode(s: Text)
    requires Valid(s)
    ensures Encode(Decode(s)) == s
  {
    hide Rebase, ToText, ToDigits, Valid;
    DigitsText(s);
    RebaseTwice(ToDigits(s), 58, 256);
  }

  /** Decoding gives nothing exactly for the empty string and for strings outside the alphabet. */
  lemma DecodeNothing(s: Text)
    ensures Decode(s) == [] <==> s == [] || !Valid(s)
  {
    hide Rebase;
    if Valid(s) {
      DigitsText(s);
      RebaseEmpty(ToDigits(s), 58, 256);
    }
  }
}
