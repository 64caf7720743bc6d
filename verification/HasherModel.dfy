/**
 The SHA256 object on values: its fields, and what each public call does to them and returns. The
 class in Sha256.dfy is proved to do exactly this; here the calls are related to one another and
 to FIPS 180-4.
 */
module HasherModel {
  import opened Words
  import opened Fips180
  import Hex

  datatype Hasher = Hasher(state: Chain, buffer: seq<byte>, bitLength: uint64, bufferSize: nat, finalized: bool) {
    predicate Valid() {
      |buffer| == 64 && bufferSize < 64
    }
  }

  /** The object as constructed and as `Reset` leaves it. */
  function Fresh(): (h: Hasher)
    ensures h.Valid()
  {
    Hasher(IV, Zeros(64), 0, 0, false)
  }

  // ---------------------------------------------------------------- calls

  function AbsorbByte(h: Hasher, b: byte): (h': Hasher)
    requires h.Valid()
    ensures h'.Valid()
  {
    var buffer := h.buffer[h.bufferSize := b];
    if h.bufferSize + 1 == 64 then
      h.(state := Compress(h.state, buffer), buffer := buffer, bitLength := Mod64(h.bitLength + 512), bufferSize := 0)
    else
      h.(buffer := buffer, bufferSize := h.bufferSize + 1)
  }

  function Absorb(h: Hasher, data: seq<byte>): (h': Hasher)
    requires h.Valid()
    ensures h'.Valid()
  {
    if data == [] then h else AbsorbByte(Absorb(h, data[..|data| - 1]), data[|data| - 1])
  }

  function Update(h: Hasher, data: seq<byte>): (h': Hasher)
    requires h.Valid()
    ensures h'.Valid()
  {
    Absorb(if h.finalized then Fresh() else h, data)
  }

  /** The blocks, one or two, that `Pad` hands to the compression function. */
  function PadBlocks(h: Hasher): (b: seq<byte>)
    requires h.Valid()
    ensures |b| == if h.bufferSize < 56 then 64 else 128
  {
    var zeros := if h.bufferSize < 56 then 55 - h.bufferSize else 119 - h.bufferSize;
    h.buffer[..h.bufferSize] + [0x80] + Zeros(zeros) + BigEndian(Mod64(h.bitLength + 8 * h.bufferSize), 8)
  }

  /** The chaining value after the one or two blocks `b`. */
  function CompressAll(s: Chain, b: seq<byte>): Chain
    requires |b| == 64 || |b| == 128
  {
    if |b| == 64 then Compress(s, b) else Compress(Compress(s, b[..64]), b[64..])
  }

  function Pad(h: Hasher): (h': Hasher)
    requires h.Valid()
    ensures h'.Valid()
  {
    var b := PadBlocks(h);
    Hasher(CompressAll(h.state, b), b[|b| - 64..], Mod64(h.bitLength + 8 * h.bufferSize), 0, h.finalized)
  }

  function Finalize(h: Hasher): (h': Hasher)
    requires h.Valid()
    ensures h'.Valid()
  {
    if h.finalized then h else Pad(h).(finalized := true)
  }

  /** The hash that `Finalize` returns. */
  function Output(h: Hasher): seq<byte>
    requires h.Valid()
  {
    StoreWords(Finalize(h).state)
  }

  /** The object that `CalculateHex` leaves behind. */
  function AfterHex(h: Hasher, input: seq<byte>): (h': Hasher)
    requires h.Valid()
    ensures h'.Valid()
  {
    Finalize(Update(Fresh(), input))
  }

  function HexOutput(h: Hasher, input: seq<byte>): string
    requires h.Valid()
  {
    Hex.Encode(Output(Update(Fresh(), input)))
  }

  // ---------------------------------------------------------------- what the fields mean

  function WholeBlocks(n: nat): (k: nat)
    ensures k <= n && k % 64 == 0 && n - k == n % 64
  {
    n - n % 64
  }

  /** The fields hold the hash, so far or final, of message `m`. */
  ghost predicate Represents(h: Hasher, m: seq<byte>)
    ensures Represents(h, m) ==> h.Valid()
  {
    && h.Valid()
    && if h.finalized then
         var p := PadMessage(m);
         && h.bufferSize == 0 && h.buffer == p[|p| - 64..]
         && h.state == HashBlocks(p) && h.bitLength == Mod64(8 * |m|)
       else
         var k := WholeBlocks(|m|);
         && h.bufferSize == |m| % 64
         && h.buffer[..h.bufferSize] == m[k..]
         && h.state == HashBlocks(m[..k])
         && h.bitLength == Mod64(8 * k)
  }

  lemma HashOneMoreBlock(b: seq<byte>, block: seq<byte>)
    requires |b| % 64 == 0 && |block| == 64
    ensures HashBlocks(b + block) == Compress(HashBlocks(b), block)
  {
    var c := b + block;
    assert c[..|c| - 64] == b && c[|c| - 64..] == block;
  }

  lemma WholeBlocksStep(n: nat)
    ensures n % 64 == 63 ==> WholeBlocks(n + 1) == n + 1 == WholeBlocks(n) + 64 && (n + 1) % 64 == 0
    ensures n % 64 != 63 ==> WholeBlocks(n + 1) == WholeBlocks(n) && (n + 1) % 64 == n % 64 + 1
  {
  }

  /** A byte that fills the buffer completes a block of the message. */
  lemma FullBlockRepresents(h: Hasher, m: seq<byte>, b: byte)
    requires !h.finalized && Represents(h, m) && h.bufferSize == 63
    ensures Represents(AbsorbByte(h, b), m + [b])
  {
    hide Compress, Mod64, WholeBlocks, HashBlocks;
    var k, block := WholeBlocks(|m|), h.buffer[63 := b];
    WholeBlocksStep(|m|);
    assert h.buffer[..63] == m[k..];
    assert m + [b] == m[..k] + block;
    HashOneMoreBlock(m[..k], block);
    AddMod64(8 * k, 512);
    assert (m + [b])[..k + 64] == m + [b];
  }

  lemma AbsorbByteRepresents(h: Hasher, m: seq<byte>, b: byte)
    requires !h.finalized && Represents(h, m)
    ensures !AbsorbByte(h, b).finalized && Represents(AbsorbByte(h, b), m + [b])
  {
    hide Compress, Mod64, WholeBlocks, HashBlocks;
    if h.bufferSize == 63 {
      FullBlockRepresents(h, m, b);
    } else {
      var k, n, size := WholeBlocks(|m|), m + [b], h.bufferSize;
      WholeBlocksStep(|m|);
      assert n[..k] == m[..k];
      assert h.buffer[size := b][..size + 1] == h.buffer[..size] + [b] == n[k..];
    }
  }

  lemma {:induction false} AbsorbRepresents(h: Hasher, m: seq<byte>, data: seq<byte>)
    requires !h.finalized && Represents(h, m)
    ensures !Absorb(h, data).finalized && Represents(Absorb(h, data), m + data)
  {
    hide AbsorbByte, Represents;
    if data == [] {
      assert m + data == m;
    } else {
      var before := data[..|data| - 1];
      AbsorbRepresents(h, m, before);
      AbsorbByteRepresents(Absorb(h, before), m + before, data[|data| - 1]);
      assert m + data == m + before + [data[|data| - 1]];
    }
  }

  lemma FreshRepresentsEmpty()
    ensures Represents(Fresh(), [])
    ensures HashBlocks([]) == IV && WholeBlocks(0) == 0
  {
  }

  lemma ZerosFillBlock(n: nat)
    ensures ZeroCount(n) == if n % 64 < 56 then 55 - n % 64 else 119 - n % 64
  {
    hide ReachesLengthField;
    var r := n % 64;
    assert r < 56 ==> 119 - r == 64 + (55 - r);
  }

  /** The bytes that `Pad` feeds complete the whole blocks already absorbed to the padded message. */
  lemma PadCompletesMessage(h: Hasher, m: seq<byte>)
    requires !h.finalized && Represents(h, m)
    ensures m[..WholeBlocks(|m|)] + PadBlocks(h) == PadMessage(m)
  {
    hide HashBlocks, Mod64, WholeBlocks, BigEndian, Zeros, ZeroCount;
    var k := WholeBlocks(|m|);
    AddMod64(8 * k, 8 * h.bufferSize);
    ZerosFillBlock(|m|);
    assert 8 * k + 8 * h.bufferSize == 8 * |m|;
    assert m == m[..k] + m[k..];
  }

  lemma HashPadBlocks(b: seq<byte>, c: seq<byte>)
    requires |b| % 64 == 0 && (|c| == 64 || |c| == 128)
    ensures HashBlocks(b + c) == CompressAll(HashBlocks(b), c)
  {
    hide Compress, HashBlocks;
    if |c| == 64 {
      HashOneMoreBlock(b, c);
    } else {
      var d := b + c[..64];
      assert |d| % 64 == 0;
      HashOneMoreBlock(b, c[..64]);
      HashOneMoreBlock(d, c[64..]);
      assert b + c == d + c[64..];
    }
  }

  /** Finalizing an object that represents `m` returns the FIPS 180-4 digest of `m`. */
  lemma FinalizeRepresents(h: Hasher, m: seq<byte>)
    requires Represents(h, m)
    ensures Represents(Finalize(h), m) && Finalize(h).finalized
    ensures Output(h) == Digest(m)
  {
    hide PadBlocks, PadMessage, CompressAll, HashBlocks, Mod64;
    if !h.finalized {
      var k := WholeBlocks(|m|);
      AddMod64(8 * k, 8 * h.bufferSize);
      PadCompletesMessage(h, m);
      HashPadBlocks(m[..k], PadBlocks(h));
    }
  }
}
