/**
 SHA-256 as FIPS 180-4 defines it: pure recursive functions over byte and word sequences, with no
 buffers and no running counters. Section numbers are those of FIPS 180-4.
 */
module Fips180 {
  import opened Words

  /** An intermediate hash value H: eight words. */
  type Chain = h: seq<word> | |h| == 8 witness [0, 0, 0, 0, 0, 0, 0, 0]

  /** The eight working variables of section 6.2.2. */
  datatype Regs = Regs(a: word, b: word, c: word, d: word, e: word, f: word, g: word, h: word)

  /** Section 5.3.3. */
  const IV: Chain := [
    0x6a09e667, 0xbb67ae85, 0x3c6ef372, 0xa54ff53a, 0x510e527f, 0x9b05688c, 0x1f83d9ab, 0x5be0cd19]

  /** Section 4.2.2. */
  const K: seq<word> :=
    [0x428a2f98, 0x71374491, 0xb5c0fbcf, 0xe9b5dba5, 0x3956c25b, 0x59f111f1, 0x923f82a4, 0xab1c5ed5] +
    [0xd807aa98, 0x12835b01, 0x243185be, 0x550c7dc3, 0x72be5d74, 0x80deb1fe, 0x9bdc06a7, 0xc19bf174] +
    [0xe49b69c1, 0xefbe4786, 0x0fc19dc6, 0x240ca1cc, 0x2de92c6f, 0x4a7484aa, 0x5cb0a9dc, 0x76f988da] +
    [0x983e5152, 0xa831c66d, 0xb00327c8, 0xbf597fc7, 0xc6e00bf3, 0xd5a79147, 0x06ca6351, 0x14292967] +
    [0x27b70a85, 0x2e1b2138, 0x4d2c6dfc, 0x53380d13, 0x650a7354, 0x766a0abb, 0x81c2c92e, 0x92722c85] +
    [0xa2bfe8a1, 0xa81a664b, 0xc24b8b70, 0xc76c51a3, 0xd192e819, 0xd6990624, 0xf40e3585, 0x106aa070] +
    [0x19a4c116, 0x1e376c08, 0x2748774c, 0x34b0bcb5, 0x391c0cb3, 0x4ed8aa4a, 0x5b9cca4f, 0x682e6ff3] +
    [0x748f82ee, 0x78a5636f, 0x84c87814, 0x8cc70208, 0x90befffa, 0xa4506ceb, 0xbef9a3f7, 0xc67178f2]

  // ---------------------------------------------------------------- section 4.1.2

  function Ch(x: word, y: word, z: word): word { (x & y) ^ (!x & z) }

  function Maj(x: word, y: word, z: word): word { (x & y) ^ (x & z) ^ (y & z) }

  function BigSigma0(x: word): word { RotateRight(x, 2) ^ RotateRight(x, 13) ^ RotateRight(x, 22) }

  function BigSigma1(x: word): word { RotateRight(x, 6) ^ RotateRight(x, 11) ^ RotateRight(x, 25) }

  function SmallSigma0(x: word): word { RotateRight(x, 7) ^ RotateRight(x, 18) ^ (x >> 3) }

  function SmallSigma1(x: word): word { RotateRight(x, 17) ^ RotateRight(x, 19) ^ (x >> 10) }

  // ---------------------------------------------------------------- section 6.2.2

  /** Step 1: word `t` of the message schedule of the sixteen-word block `m`. */
  function W(m: seq<word>, t: nat): word
    requires |m| == 16
  {
    if t < 16 then m[t]
    else Sum4(SmallSigma1(W(m, t - 2)), W(m, t - 7), SmallSigma0(W(m, t - 15)), W(m, t - 16))
  }

  /** Step 3: one round, with round constant `k` and schedule word `w`. */
  function Round(r: Regs, k: word, w: word): Regs {
    var t1 := Sum5(r.h, BigSigma1(r.e), Ch(r.e, r.f, r.g), k, w);
    var t2 := Plus(BigSigma0(r.a), Maj(r.a, r.b, r.c));
    Regs(Plus(t1, t2), r.a, r.b, r.c, Plus(r.d, t1), r.e, r.f, r.g)
  }

  /** The first `n` rounds over block `m`. */
  function Rounds(r: Regs, m: seq<word>, n: nat): Regs
    requires |m| == 16 && n <= |K|
  {
    if n == 0 then r else Round(Rounds(r, m, n - 1), K[n - 1], W(m, n - 1))
  }

  /** Step 2. */
  function Load(h: Chain): Regs {
    Regs(h[0], h[1], h[2], h[3], h[4], h[5], h[6], h[7])
  }

  /** Step 4. */
  function FeedForward(h: Chain, r: Regs): Chain {
    [Plus(h[0], r.a), Plus(h[1], r.b), Plus(h[2], r.c), Plus(h[3], r.d),
     Plus(h[4], r.e), Plus(h[5], r.f), Plus(h[6], r.g), Plus(h[7], r.h)]
  }

  /** The hash value after one more 64-byte block. */
  function Compress(h: Chain, block: seq<byte>): Chain
    requires |block| == 64
  {
    FeedForward(h, Rounds(Load(h), LoadWords(block), |K|))
  }

  /** H^(i) for the `i` blocks that `b` parses into (section 5.2.1). */
  function HashBlocks(b: seq<byte>): Chain
    requires |b| % 64 == 0
  {
    if b == [] then IV else Compress(HashBlocks(b[..|b| - 64]), b[|b| - 64..])
  }

  // ---------------------------------------------------------------- section 5.1.1

  /** With `z` zero bytes, an `n`-byte message and the byte 0x80 stop 8 bytes short of a block. */
  predicate ReachesLengthField(n: nat, z: nat) {
    (n + 1 + z) % 64 == 56
  }

  /** How many zero bytes follow the byte 0x80: the smallest number that does. */
  function ZeroCount(n: nat): (z: nat)
    ensures ReachesLengthField(n, z)
    ensures forall y: nat :: y < z ==> !ReachesLengthField(n, y)
  {
    (119 - n % 64) % 64
  }

  lemma PaddedLength(n: nat)
    ensures (n + 1 + ZeroCount(n) + 8) % 64 == 0
  {
    assert n == 64 * (n / 64) + n % 64;
  }

  function Zeros(n: nat): (b: seq<byte>)
    ensures |b| == n
  {
    seq(n, _ => 0)
  }

  /**
   What follows a message of `n` bytes. FIPS 180-4 defines it for fewer than 2^64 bits; a longer
   message gets the length field that 64-bit arithmetic leaves.
   */
  function PaddingFor(n: nat): (p: seq<byte>)
    ensures |p| == 1 + ZeroCount(n) + 8
  {
    [0x80] + Zeros(ZeroCount(n)) + BigEndian(Mod64(8 * n), 8)
  }

  /** The padded message: a whole number of blocks. */
  function PadMessage(m: seq<byte>): (p: seq<byte>)
    ensures |p| % 64 == 0 && |m| + 9 <= |p| && 64 <= |p|
    ensures p[..|m|] == m
  {
    PaddedLength(|m|);
    m + PaddingFor(|m|)
  }

  /** The message digest (section 6.2.2, last display). */
  function Digest(m: seq<byte>): (d: seq<byte>)
    ensures |d| == 32
  {
    StoreWords(HashBlocks(PadMessage(m)))
  }
}
