/** Bytes, 32-bit words and 64-bit counters, and their big-endian layouts. */
module Words {

  type byte = bv8
  type word = bv32

  const TWO_64: nat := 0x1_0000_0000_0000_0000

  /** A `uint64_t`: a natural number that every operation reduces modulo 2^64. */
  type uint64 = n: nat | n < TWO_64

  function Mod64(n: nat): uint64 {
    n % 0x1_0000_0000_0000_0000
  }

  lemma AddMod64(x: nat, y: nat)
    ensures Mod64(Mod64(x) + y) == Mod64(x + y)
  {
  }

  // ---------------------------------------------------------------- words

  /** ROTR of FIPS 180-4, section 3.2, which the source spells the same way. */
  function RotateRight(value: word, bits: nat): word
    requires 0 < bits < 32
  {
    (value >> bits) | (value << (32 - bits))
  }

  /** It is the circular shift, for every amount that SHA-256 uses. */
  lemma RotateRightIsCircular(x: word)
    ensures RotateRight(x, 2) == x.RotateRight(2) && RotateRight(x, 6) == x.RotateRight(6)
    ensures RotateRight(x, 7) == x.RotateRight(7) && RotateRight(x, 11) == x.RotateRight(11)
    ensures RotateRight(x, 13) == x.RotateRight(13) && RotateRight(x, 17) == x.RotateRight(17)
    ensures RotateRight(x, 18) == x.RotateRight(18) && RotateRight(x, 19) == x.RotateRight(19)
    ensures RotateRight(x, 22) == x.RotateRight(22) && RotateRight(x, 25) == x.RotateRight(25)
  {
  }

  // Sums modulo 2^32. Each is a function so that proofs can treat it as a black box.

  function Plus(x: word, y: word): word { x + y }

  function Sum4(a: word, b: word, c: word, d: word): word { a + b + c + d }

  function Sum5(a: word, b: word, c: word, d: word, e: word): word { a + b + c + d + e }

  lemma PlusCommutes(x: word, y: word)
    ensures Plus(x, y) == Plus(y, x)
  {
  }

  lemma Sum4Reversed(a: word, b: word, c: word, d: word)
    ensures Sum4(a, b, c, d) == Sum4(d, c, b, a)
  {
  }

  /** Four bytes as one word, most significant byte first. */
  function LoadWord(b: seq<byte>): word
    requires |b| == 4
  {
    (b[0] as word << 24) | (b[1] as word << 16) | (b[2] as word << 8) | b[3] as word
  }

  function StoreWord(w: word): (b: seq<byte>)
    ensures |b| == 4
  {
    [((w >> 24) & 0xff) as byte, ((w >> 16) & 0xff) as byte, ((w >> 8) & 0xff) as byte, (w & 0xff) as byte]
  }

  lemma StoreThenLoadWord(w: word)
    ensures LoadWord(StoreWord(w)) == w
  {
  }

  lemma LoadThenStoreWord(b: seq<byte>)
    requires |b| == 4
    ensures StoreWord(LoadWord(b)) == b
  {
  }

  function LoadWords(b: seq<byte>): (ws: seq<word>)
    requires |b| % 4 == 0
    ensures 4 * |ws| == |b|
  {
    seq(|b| / 4, i requires 0 <= i < |b| / 4 => LoadWord(b[4 * i..4 * i + 4]))
  }

  function StoreWords(ws: seq<word>): (b: seq<byte>)
    ensures |b| == 4 * |ws|
  {
    seq(4 * |ws|, i requires 0 <= i < 4 * |ws| => StoreWord(ws[i / 4])[i % 4])
  }

  lemma StoredSlice(ws: seq<word>, i: nat)
    requires i < |ws|
    ensures StoreWords(ws)[4 * i..4 * i + 4] == StoreWord(ws[i])
  {
    hide StoreWord;
    var b := StoreWords(ws);
    forall j | 0 <= j < 4
      ensures b[4 * i + j] == StoreWord(ws[i])[j]
    {
      assert (4 * i + j) / 4 == i && (4 * i + j) % 4 == j;
    }
  }

  /** Loading stored words gives the words back ... */
  lemma StoreThenLoadWords(ws: seq<word>)
    ensures LoadWords(StoreWords(ws)) == ws
  {
    hide LoadWord, StoreWord, StoreWords;
    forall i | 0 <= i < |ws|
      ensures LoadWords(StoreWords(ws))[i] == ws[i]
    {
      StoredSlice(ws, i);
      StoreThenLoadWord(ws[i]);
    }
  }

  /** ... and storing loaded words gives the bytes back. */
  lemma LoadThenStoreWords(b: seq<byte>)
    requires |b| % 4 == 0
    ensures StoreWords(LoadWords(b)) == b
  {
    hide LoadWord, StoreWord;
    forall i | 0 <= i < |b|
      ensures StoreWords(LoadWords(b))[i] == b[i]
    {
      var q, r := i / 4, i % 4;
      assert i == 4 * q + r;
      LoadThenStoreWord(b[4 * q..4 * q + 4]);
      assert b[4 * q..4 * q + 4][r] == b[i];
    }
  }

  // ---------------------------------------------------------------- counters

  function Pow256(k: nat): (p: nat)
    ensures p > 0
  {
    if k == 0 then 1 else 256 * Pow256(k - 1)
  }

  lemma Increment(b: byte)
    requires b != 255
    ensures (b + 1) as nat == b as nat + 1
  {
  }

  /** The byte with value `n`. */
  function ByteOf(n: nat): (b: byte)
    requires n < 256
    ensures b as nat == n
  {
    if n == 0 then 0 else
      Increment(ByteOf(n - 1));
      ByteOf(n - 1) + 1
  }

  /** The `len` low-order bytes of `n`, most significant first. */
  function BigEndian(n: nat, len: nat): (b: seq<byte>)
    ensures |b| == len
  {
    if len == 0 then [] else BigEndian(n / 256, len - 1) + [ByteOf(n % 256)]
  }

  /** The number that a sequence of bytes denotes, most significant first. */
  function BigEndianValue(b: seq<byte>): nat {
    if b == [] then 0 else 256 * BigEndianValue(b[..|b| - 1]) + b[|b| - 1] as nat
  }

  lemma {:induction false} BigEndianRoundTrip(n: nat, len: nat)
    requires n < Pow256(len)
    ensures BigEndianValue(BigEndian(n, len)) == n
  {
    if len == 0 {
      assert n == 0;
    } else {
      BigEndianRoundTrip(n / 256, len - 1);
      var b := BigEndian(n, len);
      assert b[..|b| - 1] == BigEndian(n / 256, len - 1);
    }
  }

  lemma SameValue(b: byte, c: byte)
    requires b as nat == c as nat
    ensures b == c
  {
    assert (b as nat) as byte == b;
    assert (c as nat) as byte == c;
  }

  lemma LastDigit(x: nat, b: byte, y: nat, c: byte)
    requires 256 * x + b as nat == 256 * y + c as nat
    ensures x == y && b == c
  {
    var u: nat, v: nat := b as nat, c as nat;
    assert x == y && u == v;
    SameValue(b, c);
  }

  /** A number has one layout of each length. */
  lemma {:induction false} BigEndianDetermines(b: seq<byte>, c: seq<byte>)
    requires |b| == |c| && BigEndianValue(b) == BigEndianValue(c)
    ensures b == c
  {
    if b == [] {
      assert c == [];
    } else {
      var n := |b| - 1;
      LastDigit(BigEndianValue(b[..n]), b[n], BigEndianValue(c[..n]), c[n]);
      BigEndianDetermines(b[..n], c[..n]);
      assert b == b[..n] + [b[n]] && c == c[..n] + [c[n]];
    }
  }

  /** `n >> 8 * k` for an unsigned number `n`. */
  function ShiftRightBytes(n: nat, k: nat): nat {
    if k == 0 then n else ShiftRightBytes(n, k - 1) / 256
  }

  lemma {:induction false} ShiftRightBytesStep(n: nat, k: nat)
    ensures ShiftRightBytes(n / 256, k) == ShiftRightBytes(n, k + 1)
  {
    if k == 0 {
      assert ShiftRightBytes(n / 256, 0) == n / 256;
    } else {
      ShiftRightBytesStep(n, k - 1);
    }
  }

  /** Shifting and masking picks out the bytes of the big-endian layout. */
  lemma {:induction false} BigEndianAt(n: nat, len: nat, j: nat)
    requires j < len
    ensures BigEndian(n, len)[j] == ByteOf(ShiftRightBytes(n, len - 1 - j) % 256)
  {
    if j == len - 1 {
      assert BigEndian(n, len)[j] == ByteOf(n % 256);
    } else {
      BigEndianAt(n / 256, len - 1, j);
      ShiftRightBytesStep(n, len - 2 - j);
    }
  }
}
