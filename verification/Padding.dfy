/** What the padding of FIPS 180-4, section 5.1.1, guarantees, and up to which message length. */
module Padding {
  import opened Words
  import opened Fips180

  /** Messages shorter than this many bytes have a bit length that fits the 64-bit length field. */
  const TWO_61: nat := 0x2000_0000_0000_0000

  function Mod61(n: nat): (r: nat)
    ensures r <= n
    ensures r == n <==> n < TWO_61
  {
    n % 0x2000_0000_0000_0000
  }

  ghost predicate IsSuffix(s: seq<byte>, t: seq<byte>) {
    |s| <= |t| && t[|t| - |s|..] == s
  }

  function LengthField(n: nat): (f: seq<byte>)
    ensures |f| == 8
  {
    BigEndian(Mod64(8 * n), 8)
  }

  lemma LengthFieldIsLast(m: seq<byte>)
    ensures |PadMessage(m)| == |m| + |PaddingFor(|m|)|
    ensures PadMessage(m)[|PadMessage(m)| - 8..] == LengthField(|m|)
  {
  }

  lemma Pow256Eight()
    ensures Pow256(8) == TWO_64
  {
    assert Pow256(2) == 0x1_0000;
    assert Pow256(4) == 0x1_0000_0000;
    assert Pow256(6) == 0x1_0000_0000_0000;
  }

  lemma EightTimesMod(n: nat)
    ensures Mod64(8 * n) == 8 * Mod61(n)
  {
  }

  /** What a receiver reads from the length field: eight times the message length modulo 2^61. */
  lemma LengthFieldValue(n: nat)
    ensures BigEndianValue(LengthField(n)) == 8 * Mod61(n)
  {
    Pow256Eight();
    BigEndianRoundTrip(Mod64(8 * n), 8);
    EightTimesMod(n);
  }

  /** Reads the length field and keeps that many leading bytes. */
  function Unpad(p: seq<byte>): seq<byte>
    requires |p| >= 8
  {
    var n := BigEndianValue(p[|p| - 8..]) / 8;
    if n <= |p| then p[..n] else p
  }

  lemma UnpadReadsLength(m: seq<byte>)
    ensures Unpad(PadMessage(m)) == PadMessage(m)[..Mod61(|m|)]
  {
    hide PadMessage, PaddingFor, LengthField, BigEndianValue, Mod61;
    LengthFieldIsLast(m);
    LengthFieldValue(|m|);
    var p := PadMessage(m);
    assert BigEndianValue(p[|p| - 8..]) == 8 * Mod61(|m|);
  }

  /** Unpadding recovers the message exactly up to the length that FIPS 180-4 admits. */
  lemma UnpadRecoversMessage(m: seq<byte>)
    ensures Unpad(PadMessage(m)) == m <==> |m| < TWO_61
  {
    hide Unpad, PaddingFor;
    UnpadReadsLength(m);
  }

  /** The number of blocks: one for each 64 bytes of message, marker byte and length field begun. */
  lemma BlockCount(m: seq<byte>)
    ensures |PadMessage(m)| / 64 == (|m| + 9 + 63) / 64
  {
    LengthFieldIsLast(m);
  }

  /**
   Section 5.1.1 in full: of the byte strings of a whole number of blocks, no longer than need be, the
   padded message is the one that has the message, the byte 0x80, zero bytes, and in its last eight bytes
   the bit length, which is that of the message modulo 2^61 bytes.
   */
  ghost predicate IsPadded(m: seq<byte>, p: seq<byte>) {
    && |p| % 64 == 0 && |m| + 9 <= |p| < |m| + 9 + 64
    && p[..|m|] == m && p[|m|] == 0x80
    && (forall i :: |m| < i < |p| - 8 ==> p[i] == 0)
    && BigEndianValue(p[|p| - 8..]) == 8 * Mod61(|m|)
  }

  lemma PaddingIs(m: seq<byte>)
    ensures IsPadded(m, PadMessage(m))
  {
    LengthFieldIsLast(m);
    LengthFieldValue(|m|);
    hide LengthField, BigEndianValue, Mod61;
  }

  lemma OneMultiple(x: nat, y: nat, n: nat)
    requires x % 64 == 0 && y % 64 == 0 && n <= x < n + 64 && n <= y < n + 64
    ensures x == y
  {
    assert x / 64 == y / 64;
  }

  lemma PaddedOnce(m: seq<byte>, p: seq<byte>, q: seq<byte>)
    requires IsPadded(m, p) && IsPadded(m, q)
    ensures p == q
  {
    hide BigEndianValue, Mod61;
    OneMultiple(|p|, |q|, |m| + 9);
    var n := |p| - 8;
    BigEndianDetermines(p[n..], q[n..]);
    assert p[|m| + 1..n] == q[|m| + 1..n];
    assert p == p[..|m|] + [p[|m|]] + p[|m| + 1..n] + p[n..];
    assert q == q[..|m|] + [q[|m|]] + q[|m| + 1..n] + q[n..];
  }

  lemma PadMessageIff(m: seq<byte>, p: seq<byte>)
    ensures p == PadMessage(m) <==> IsPadded(m, p)
  {
    hide PadMessage, IsPadded;
    PaddingIs(m);
    if IsPadded(m, p) {
      PaddedOnce(m, p, PadMessage(m));
    }
  }

  lemma ModOfMultiple(n: nat, k: nat)
    requires k > 0
    ensures n % (64 * k) % 64 == n % 64
  {
    var q, r := n / (64 * k), n % (64 * k);
    assert n == 64 * (k * q) + r;
    assert (64 * (k * q) + r) % 64 == r % 64;
  }

  /** The padding depends on the message length modulo 2^61 only. */
  lemma PaddingByLength(x: nat, y: nat)
    requires Mod61(x) == Mod61(y)
    ensures PaddingFor(x) == PaddingFor(y)
  {
    ModOfMultiple(x, TWO_61 / 64);
    ModOfMultiple(y, TWO_61 / 64);
    assert TWO_61 == 64 * (TWO_61 / 64);
    EightTimesMod(x);
    EightTimesMod(y);
  }

  lemma CongruentLengths(x: nat, y: nat)
    requires x <= y
    ensures Mod61(y - x) == 0 <==> Mod61(x) == Mod61(y)
  {
    if Mod61(y - x) == 0 {
      var k := (y - x) / 0x2000_0000_0000_0000;
      assert y == x + 0x2000_0000_0000_0000 * k;
    }
  }

  lemma SuffixAppend(s: seq<byte>, t: seq<byte>, x: seq<byte>)
    ensures IsSuffix(s, t) <==> IsSuffix(s + x, t + x)
  {
    if |s| <= |t| {
      var k := |t| - |s|;
      assert (t + x)[k..] == t[k..] + x;
      assert (s + x)[..|s|] == s;
      assert (t[k..] + x)[..|s|] == t[k..];
    }
  }

  /** When one padded message ends another, the two have the same padding. */
  lemma SuffixSharesPadding(m: seq<byte>, n: seq<byte>)
    requires IsSuffix(PadMessage(m), PadMessage(n))
    ensures Mod61(|m|) == Mod61(|n|)
    ensures PaddingFor(|m|) == PaddingFor(|n|)
  {
    var p, q := PadMessage(m), PadMessage(n);
    LengthFieldIsLast(m);
    LengthFieldIsLast(n);
    LengthFieldValue(|m|);
    LengthFieldValue(|n|);
    hide PadMessage, PaddingFor, LengthField;
    assert p[|p| - 8..] == q[|q| - 8..];
    PaddingByLength(|m|, |n|);
  }

  /**
   Exactly when one padded message ends another: the second message is the first one behind a
   whole number of 2^61 bytes.
   */
  lemma PaddedSuffix(m: seq<byte>, n: seq<byte>)
    ensures IsSuffix(PadMessage(m), PadMessage(n))
       <==> IsSuffix(m, n) && Mod61(|n| - |m|) == 0
  {
    hide PaddingFor;
    if IsSuffix(PadMessage(m), PadMessage(n)) {
      SuffixSharesPadding(m, n);
      SuffixAppend(m, n, PaddingFor(|m|));
      CongruentLengths(|m|, |n|);
    } else if IsSuffix(m, n) && Mod61(|n| - |m|) == 0 {
      CongruentLengths(|m|, |n|);
      PaddingByLength(|m|, |n|);
      SuffixAppend(m, n, PaddingFor(|m|));
    }
  }

  /** Below 2^61 bytes no padded message ends another; in particular padding is injective. */
  lemma SuffixFree(m: seq<byte>, n: seq<byte>)
    requires |m| < TWO_61 && |n| < TWO_61
    ensures IsSuffix(PadMessage(m), PadMessage(n)) <==> m == n
  {
    hide PaddingFor;
    PaddedSuffix(m, n);
    if IsSuffix(PadMessage(m), PadMessage(n)) {
      CongruentLengths(|m|, |n|);
      assert n[0..] == m;
    }
  }
}
