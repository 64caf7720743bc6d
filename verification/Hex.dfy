/** Lower-case hexadecimal, two digits a byte. */
module Hex {
  import opened Words

  predicate IsDigit(c: char) {
    '0' <= c <= '9' || 'a' <= c <= 'f'
  }

  function DigitValue(c: char): (n: nat)
    requires IsDigit(c)
    ensures n < 16
  {
    if c <= '9' then (c - '0') as nat else (c - 'a') as nat + 10
  }

  function Digit(n: nat): (c: char)
    requires n < 16
    ensures IsDigit(c) && DigitValue(c) == n
  {
    if n < 10 then '0' + n as char else 'a' + (n - 10) as char
  }

  /** The sixteen digits in order. */
  lemma DigitIs(n: nat)
    requires n < 16
    ensures Digit(n) == "0123456789abcdef"[n]
  {
  }

  lemma Halves(n: nat)
    requires n < 256
    ensures n / 16 < 16 && 16 * (n / 16) + n % 16 == n
  {
  }

  function EncodeByte(b: byte): (s: string)
    ensures |s| == 2 && IsDigit(s[0]) && IsDigit(s[1])
    ensures 16 * DigitValue(s[0]) + DigitValue(s[1]) == b as nat
  {
    var n: nat := b as nat;
    Halves(n);
    [Digit(n / 16), Digit(n % 16)]
  }

  function Encode(b: seq<byte>): (s: string)
    ensures |s| == 2 * |b|
    ensures forall c :: c in s ==> IsDigit(c)
  {
    if b == [] then "" else Encode(b[..|b| - 1]) + EncodeByte(b[|b| - 1])
  }

  function Decode(s: string): seq<byte>
    requires |s| % 2 == 0
    requires forall c :: c in s ==> IsDigit(c)
  {
    if s == "" then []
    else
      var n := |s| - 2;
      Decode(s[..n]) + [ByteOf(16 * DigitValue(s[n]) + DigitValue(s[n + 1]))]
  }

  lemma EncodeNothing()
    ensures Encode([]) == ""
  {
  }

  lemma EncodeOneMore(b: seq<byte>, x: byte)
    ensures Encode(b + [x]) == Encode(b) + EncodeByte(x)
  {
    hide EncodeByte;
    assert (b + [x])[..|b|] == b;
  }

  lemma DecodeByte(b: byte)
    ensures ByteOf(16 * DigitValue(EncodeByte(b)[0]) + DigitValue(EncodeByte(b)[1])) == b
  {
    SameValue(ByteOf(16 * DigitValue(EncodeByte(b)[0]) + DigitValue(EncodeByte(b)[1])), b);
  }

  lemma {:induction false} EncodeThenDecode(b: seq<byte>)
    ensures Decode(Encode(b)) == b
  {
    hide EncodeByte, IsDigit, DigitValue, ByteOf;
    if b == [] {
      assert Encode(b) == [];
    } else {
      var s, last := Encode(b), EncodeByte(b[|b| - 1]);
      EncodeThenDecode(b[..|b| - 1]);
      DecodeByte(b[|b| - 1]);
      assert s[..|s| - 2] == Encode(b[..|b| - 1]);
      assert s[|s| - 2] == last[0] && s[|s| - 1] == last[1];
    }
  }

  /** The text, digit by digit: the high half of each byte first. */
  lemma {:induction false} EncodeAt(b: seq<byte>, i: nat)
    requires i < |b|
    ensures Encode(b)[2 * i] == "0123456789abcdef"[b[i] as nat / 16]
    ensures Encode(b)[2 * i + 1] == "0123456789abcdef"[b[i] as nat % 16]
  {
    var n := |b| - 1;
    if i == n {
      DigitIs(b[n] as nat / 16);
      DigitIs(b[n] as nat % 16);
    } else {
      EncodeAt(b[..n], i);
    }
  }

  /** So distinct byte strings print differently. */
  lemma EncodeInjective(b: seq<byte>, c: seq<byte>)
    ensures Encode(b) == Encode(c) <==> b == c
  {
    EncodeThenDecode(b);
    EncodeThenDecode(c);
  }
}
