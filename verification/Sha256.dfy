/**
 The SHA256 class of IOCP/SHA256.h and IOCP/SHA256.cpp: fixed buffers updated in place, loops and
 running counters. Each method is proved equal to its counterpart in HasherModel, and the object
 keeps, as ghost state, the message it stands for and every byte the compression function has seen.
 */
module Sha256 {
  import opened Words
  import opened Fips180
  import opened HasherModel
  import opened Padding
  import Hex

  // ---------------------------------------------------------------- one step of each loop

  lemma WordOfChunk(chunk: seq<byte>, i: nat)
    requires |chunk| == 64 && i < 16
    ensures LoadWords(chunk)[i] == (chunk[i * 4] as word << 24) | (chunk[i * 4 + 1] as word << 16)
                                 | (chunk[i * 4 + 2] as word << 8) | chunk[i * 4 + 3] as word
  {
  }

  lemma FirstWords(m: seq<word>)
    requires |m| == 16
    ensures forall j :: 0 <= j < 16 ==> W(m, j) == m[j]
  {
  }

  lemma SmallSigmas(x: word, y: word)
    ensures RotateRight(x, 7) ^ RotateRight(x, 18) ^ (x >> 3) == SmallSigma0(x)
    ensures RotateRight(y, 17) ^ RotateRight(y, 19) ^ (y >> 10) == SmallSigma1(y)
  {
    hide RotateRight;
  }

  lemma BigSigmas(a: word, b: word, c: word, e: word, f: word, g: word)
    ensures RotateRight(e, 6) ^ RotateRight(e, 11) ^ RotateRight(e, 25) == BigSigma1(e)
    ensures (e & f) ^ (!e & g) == Ch(e, f, g)
    ensures RotateRight(a, 2) ^ RotateRight(a, 13) ^ RotateRight(a, 22) == BigSigma0(a)
    ensures (a & b) ^ (a & c) ^ (b & c) == Maj(a, b, c)
  {
    hide RotateRight;
  }

  lemma ScheduleStep(m: seq<word>, t: nat, w16: word, w15: word, w7: word, w2: word)
    requires |m| == 16 && 16 <= t
    requires w16 == W(m, t - 16) && w15 == W(m, t - 15) && w7 == W(m, t - 7) && w2 == W(m, t - 2)
    ensures Sum4(w16, SmallSigma0(w15), w7, SmallSigma1(w2)) == W(m, t)
  {
    hide Sum4, SmallSigma0, SmallSigma1;
    Sum4Reversed(w16, SmallSigma0(w15), w7, SmallSigma1(w2));
  }

  lemma NoRounds(r: Regs, m: seq<word>)
    requires |m| == 16
    ensures Rounds(r, m, 0) == r
  {
  }

  lemma FedStep(h: Hasher, m: seq<byte>, b: byte)
    requires !h.finalized && Represents(h, m)
    ensures (m + [b])[..WholeBlocks(|m| + 1)]
         == if h.bufferSize == 63 then m[..WholeBlocks(|m|)] + h.buffer[63 := b] else m[..WholeBlocks(|m|)]
  {
    hide HashBlocks, Mod64, WholeBlocks;
    WholeBlocksStep(|m|);
    var k := WholeBlocks(|m|);
    if h.bufferSize == 63 {
      assert h.buffer[63 := b] == h.buffer[..63] + [b];
      assert m + [b] == m[..k] + (m[k..] + [b]);
    }
  }

  lemma OnePadBlock(h: Hasher, last: seq<byte>)
    requires h.Valid() && h.bufferSize < 56
    requires last == h.buffer[..h.bufferSize] + [0x80] + Zeros(55 - h.bufferSize)
                   + BigEndian(Mod64(h.bitLength + 8 * h.bufferSize), 8)
    ensures PadBlocks(h) == last
    ensures HasherModel.Pad(h).state == Compress(h.state, last) && HasherModel.Pad(h).buffer == last
  {
    hide Mod64, BigEndian, Compress, Zeros;
    assert last[|last| - 64..] == last;
  }

  lemma TwoPadBlocks(h: Hasher, first: seq<byte>, last: seq<byte>)
    requires h.Valid() && h.bufferSize >= 56
    requires first == h.buffer[..h.bufferSize] + [0x80] + Zeros(63 - h.bufferSize)
    requires last == Zeros(56) + BigEndian(Mod64(h.bitLength + 8 * h.bufferSize), 8)
    ensures PadBlocks(h) == first + last
    ensures HasherModel.Pad(h).state == Compress(Compress(h.state, first), last) && HasherModel.Pad(h).buffer == last
  {
    hide Mod64, BigEndian, Compress;
    assert Zeros(119 - h.bufferSize) == Zeros(63 - h.bufferSize) + Zeros(56);
    assert PadBlocks(h) == first + last;
    assert (first + last)[..64] == first && (first + last)[64..] == last;
  }

  lemma PadFields(h: Hasher)
    requires h.Valid()
    ensures
      var p := HasherModel.Pad(h);
      p == Hasher(p.state, p.buffer, Mod64(h.bitLength + 8 * h.bufferSize), 0, h.finalized)
  {
    hide PadBlocks, CompressAll, Mod64;
  }

  lemma PadState(h: Hasher)
    requires h.Valid()
    ensures HasherModel.Pad(h).state == CompressAll(h.state, PadBlocks(h))
  {
    hide PadBlocks, CompressAll, Mod64;
  }

  lemma StoreWordBytes(w: word)
    ensures StoreWord(w)[0] == ((w >> 24) & 0xff) as byte && StoreWord(w)[1] == ((w >> 16) & 0xff) as byte
    ensures StoreWord(w)[2] == ((w >> 8) & 0xff) as byte && StoreWord(w)[3] == (w & 0xff) as byte
  {
  }

  lemma OneMoreRound(r: Regs, m: seq<word>, n: nat)
    requires |m| == 16 && n < |K|
    ensures Rounds(r, m, n + 1) == Round(Rounds(r, m, n), K[n], W(m, n))
  {
  }

  lemma CompressIs(h: Chain, block: seq<byte>)
    requires |block| == 64
    ensures Compress(h, block) == FeedForward(h, Rounds(Load(h), LoadWords(block), 64))
  {
  }

  // ---------------------------------------------------------------- the class

  class SHA256 {
    const buffer: array<byte>
    const state: array<word>
    var bitLength: uint64
    var bufferSize: nat
    var finalized: bool

    /** The message absorbed since it began: at construction, or at the last reset. */
    ghost var message: seq<byte>
    /** The blocks that the compression function has been given since then, one after another. */
    ghost var fed: seq<byte>

    ghost predicate Shape()
      reads this
    {
      buffer.Length == 64 && state.Length == 8 && buffer as object != state
    }

    function View(): Hasher
      requires Shape()
      reads this, buffer, state
    {
      Hasher(state[..], buffer[..], bitLength, bufferSize, finalized)
    }

    ghost predicate Valid()
      reads this, buffer, state
    {
      && Shape()
      && Represents(View(), message)
      && |fed| % 64 == 0
      && state[..] == HashBlocks(fed)
      && fed == if finalized then PadMessage(message) else message[..WholeBlocks(|message|)]
    }

    /** The first two loops of `Transform`: the message schedule, filled in place. */
    static method Schedule(chunk: array<byte>) returns (schedule: array<word>)
      requires chunk.Length == 64
      ensures fresh(schedule) && schedule.Length == 64
      ensures forall j :: 0 <= j < 64 ==> schedule[j] == W(LoadWords(chunk[..]), j)
    {
      hide W, Sum4, SmallSigma0, SmallSigma1, LoadWords, RotateRight;
      ghost var m := LoadWords(chunk[..]);
      schedule := new word[64];
      for i := 0 to 16
        invariant forall j :: 0 <= j < i ==> schedule[j] == m[j]
      {
        WordOfChunk(chunk[..], i);
        schedule[i] := (chunk[i * 4] as word << 24) | (chunk[i * 4 + 1] as word << 16)
                     | (chunk[i * 4 + 2] as word << 8) | chunk[i * 4 + 3] as word;
      }
      FirstWords(m);
      for i := 16 to 64
        invariant forall j :: 0 <= j < i ==> schedule[j] == W(m, j)
      {
        var w15, w2 := schedule[i - 15], schedule[i - 2];
        SmallSigmas(w15, w2);
        var s0 := RotateRight(w15, 7) ^ RotateRight(w15, 18) ^ (w15 >> 3);
        var s1 := RotateRight(w2, 17) ^ RotateRight(w2, 19) ^ (w2 >> 10);
        ScheduleStep(m, i, schedule[i - 16], schedule[i - 15], schedule[i - 7], schedule[i - 2]);
        schedule[i] := Sum4(schedule[i - 16], s0, schedule[i - 7], s1);
      }
    }

    /** The third loop of `Transform`: the eight registers, shifted through 64 rounds. */
    static method RunRounds(schedule: array<word>, start: Regs, ghost m: seq<word>) returns (r: Regs)
      requires schedule.Length == 64 && |m| == 16
      requires forall j :: 0 <= j < 64 ==> schedule[j] == W(m, j)
      ensures r == Rounds(start, m, 64)
    {
      hide W, Rounds, Plus, Sum5, BigSigma0, BigSigma1, Ch, Maj, RotateRight;
      var Regs(a, b, c, d, e, f, g, h) := start;
      NoRounds(start, m);
      for i := 0 to 64
        invariant Regs(a, b, c, d, e, f, g, h) == Rounds(start, m, i)
      {
        OneMoreRound(start, m, i);
        BigSigmas(a, b, c, e, f, g);
        var S1 := RotateRight(e, 6) ^ RotateRight(e, 11) ^ RotateRight(e, 25);
        var ch := (e & f) ^ (!e & g);
        var temp1 := Sum5(h, S1, ch, K[i], schedule[i]);
        var S0 := RotateRight(a, 2) ^ RotateRight(a, 13) ^ RotateRight(a, 22);
        var maj := (a & b) ^ (a & c) ^ (b & c);
        var temp2 := Plus(S0, maj);

        h := g;
        g := f;
        f := e;
        e := Plus(d, temp1);
        d := c;
        c := b;
        b := a;
        a := Plus(temp1, temp2);
      }
      r := Regs(a, b, c, d, e, f, g, h);
    }

    method Transform(chunk: array<byte>)
      requires Shape() && chunk.Length == 64 && chunk as object != state
      modifies state, `fed
      ensures state[..] == Compress(old(state[..]), chunk[..])
      ensures fed == old(fed) + chunk[..]
    {
      hide W, Rounds, Compress, Plus;
      ghost var h0 := state[..];
      var schedule := Schedule(chunk);
      var start := Regs(state[0], state[1], state[2], state[3], state[4], state[5], state[6], state[7]);
      var r := RunRounds(schedule, start, LoadWords(chunk[..]));
      CompressIs(h0, chunk[..]);
      state[0] := Plus(state[0], r.a);
      state[1] := Plus(state[1], r.b);
      state[2] := Plus(state[2], r.c);
      state[3] := Plus(state[3], r.d);
      state[4] := Plus(state[4], r.e);
      state[5] := Plus(state[5], r.f);
      state[6] := Plus(state[6], r.g);
      state[7] := Plus(state[7], r.h);
      assert state[..] == FeedForward(h0, r);
      fed := fed + chunk[..];
    }

    method Reset()
      requires Shape()
      modifies this, buffer, state
      ensures Valid() && View() == Fresh()
      ensures message == [] && fed == []
    {
      hide HashBlocks, PadMessage, WholeBlocks, Represents;
      bitLength := 0;
      bufferSize := 0;
      finalized := false;
      state[0], state[1], state[2], state[3] := 0x6a09e667, 0xbb67ae85, 0x3c6ef372, 0xa54ff53a;
      state[4], state[5], state[6], state[7] := 0x510e527f, 0x9b05688c, 0x1f83d9ab, 0x5be0cd19;
      forall i | 0 <= i < 64 {
        buffer[i] := 0;
      }
      message, fed := [], [];
      assert state[..] == IV;
      assert View() == Fresh();
      FreshRepresentsEmpty();
    }

    constructor ()
      ensures Valid() && View() == Fresh()
      ensures message == [] && fed == [] && fresh(buffer) && fresh(state)
    {
      buffer := new byte[64];
      state := new word[8];
      new;
      Reset();
    }

    /** One iteration of the loop in `Update`. */
    method AbsorbOne(b: byte)
      requires Valid() && !finalized
      modifies this, buffer, state
      ensures Valid() && !finalized
      ensures View() == AbsorbByte(old(View()), b)
      ensures message == old(message) + [b]
    {
      hide HashBlocks, WholeBlocks, Compress, Mod64;
      ghost var h, m := View(), message;
      AbsorbByteRepresents(h, m, b);
      FedStep(h, m, b);
      buffer[bufferSize] := b;
      bufferSize := bufferSize + 1;
      message := message + [b];
      if bufferSize == 64 {
        HashOneMoreBlock(fed, buffer[..]);
        Transform(buffer);
        bitLength := Mod64(bitLength + 512);
        bufferSize := 0;
      }
      assert View() == AbsorbByte(h, b);
    }

    /**
     Absorbs `data` byte by byte. After a finalization the object silently starts a new message,
     even when `data` is empty.
     */
    method Update(data: seq<byte>)
      requires Valid()
      modifies this, buffer, state
      ensures Valid() && !finalized
      ensures View() == HasherModel.Update(old(View()), data)
      ensures message == if old(finalized) then data else old(message) + data
    {
      hide HashBlocks, Represents, WholeBlocks, Compress, HasherModel.AbsorbByte;
      if finalized {
        Reset();
      }
      ghost var h, m := View(), message;
      for i := 0 to |data|
        invariant Valid() && !finalized
        invariant View() == Absorb(h, data[..i])
        invariant message == m + data[..i]
      {
        assert data[..i + 1][..i] == data[..i];
        AbsorbOne(data[i]);
      }
      assert data[..|data|] == data;
    }

    /** Zero bytes up to `limit`: both zero loops of `Pad`. */
    method ZeroFill(limit: nat)
      requires Shape() && bufferSize <= limit <= 64
      modifies `bufferSize, buffer
      ensures bufferSize == limit
      ensures buffer[..limit] == old(buffer[..bufferSize]) + Zeros(limit - old(bufferSize))
    {
      while bufferSize < limit
        invariant old(bufferSize) <= bufferSize <= limit
        invariant buffer[..bufferSize] == old(buffer[..bufferSize]) + Zeros(bufferSize - old(bufferSize))
      {
        buffer[bufferSize] := 0x00;
        bufferSize := bufferSize + 1;
      }
    }

    /** The length loop of `Pad`: the bit length, most significant byte first. */
    method WriteLength()
      requires Shape() && bufferSize == 56
      modifies `bufferSize, buffer
      ensures bufferSize == 64
      ensures buffer[..] == old(buffer[..56]) + BigEndian(bitLength, 8)
    {
      hide BigEndian;
      ghost var field := BigEndian(bitLength, 8);
      var i := 7;
      while i >= 0
        invariant -1 <= i <= 7 && bufferSize == 63 - i
        invariant buffer[..bufferSize] == old(buffer[..56]) + field[..7 - i]
      {
        BigEndianAt(bitLength, 8, 7 - i);
        buffer[bufferSize] := ByteOf(ShiftRightBytes(bitLength, i) % 256);
        bufferSize := bufferSize + 1;
        i := i - 1;
      }
    }

    /** The overflow branch of `Pad`: zero bytes to the end of a block that has no room for the length. */
    method OverflowBlock()
      requires Shape() && bufferSize <= 64
      modifies `bufferSize, buffer, state, `fed
      ensures bufferSize == 0
      ensures buffer[..] == old(buffer[..bufferSize]) + Zeros(64 - old(bufferSize))
      ensures state[..] == Compress(old(state[..]), buffer[..])
      ensures fed == old(fed) + buffer[..]
    {
      hide Compress, Zeros;
      ZeroFill(64);
      assert state[..] == old(state[..]);
      Transform(buffer);
      bufferSize := 0;
    }

    /** The end of `Pad`: zero bytes, the length field, and the last block. */
    method LastBlock()
      requires Shape() && bufferSize <= 56
      modifies `bufferSize, buffer, state, `fed
      ensures bufferSize == 0
      ensures buffer[..] == old(buffer[..bufferSize]) + Zeros(56 - old(bufferSize)) + BigEndian(bitLength, 8)
      ensures state[..] == Compress(old(state[..]), buffer[..])
      ensures fed == old(fed) + buffer[..]
    {
      hide Compress, BigEndian, Zeros;
      ZeroFill(56);
      WriteLength();
      assert state[..] == old(state[..]);
      Transform(buffer);
      bufferSize := 0;
    }

    /** Completes the message with its padding: one or two more blocks. */
    method Pad()
      requires Shape() && bufferSize < 64
      modifies this, buffer, state
      ensures Shape() && View() == HasherModel.Pad(old(View()))
      ensures fed == old(fed) + PadBlocks(old(View()))
      ensures message == old(message)
    {
      hide Compress, Mod64, BigEndian, PadBlocks, HasherModel.Pad, Zeros;
      ghost var h, first := View(), [];
      bitLength := Mod64(bitLength + bufferSize * 8);
      buffer[bufferSize] := 0x80;
      bufferSize := bufferSize + 1;
      assert buffer[..bufferSize] == h.buffer[..h.bufferSize] + [0x80];
      assert state[..] == h.state;
      if bufferSize > 56 {
        OverflowBlock();
        first := buffer[..];
      }
      LastBlock();
      if h.bufferSize < 56 {
        OnePadBlock(h, buffer[..]);
      } else {
        assert buffer[..] == Zeros(56) + BigEndian(bitLength, 8);
        TwoPadBlocks(h, first, buffer[..]);
      }
      PadFields(h);
    }

    /** The loop of `Finalize`: the chaining value, big-endian. */
    method StoreState(out: array<byte>)
      requires Shape() && out.Length == 32 && out as object != state
      modifies out
      ensures out[..] == StoreWords(state[..])
    {
      hide StoreWord;
      ghost var stored := StoreWords(state[..]);
      for i := 0 to 8
        invariant out[..4 * i] == stored[..4 * i]
      {
        var w := state[i];
        StoredSlice(state[..], i);
        StoreWordBytes(w);
        assert stored[..4 * i + 4] == stored[..4 * i] + StoreWord(w);
        out[i * 4] := ((w >> 24) & 0xff) as byte;
        out[i * 4 + 1] := ((w >> 16) & 0xff) as byte;
        out[i * 4 + 2] := ((w >> 8) & 0xff) as byte;
        out[i * 4 + 3] := (w & 0xff) as byte;
        assert out[..4 * i + 4] == out[..4 * i] + StoreWord(w);
      }
    }

    method Finalize() returns (hash: seq<byte>)
      requires Valid()
      modifies this, buffer, state
      ensures Valid() && finalized
      ensures View() == HasherModel.Finalize(old(View())) && hash == Output(old(View()))
      ensures message == old(message) && hash == Digest(message)
      ensures fed == PadMessage(message) && |fed| / 64 == (|message| + 9 + 63) / 64
    {
      BlockCount(message);
      hide HashBlocks, PadMessage, PadBlocks, WholeBlocks, HasherModel.Pad, Represents, Digest;
      FinalizeRepresents(View(), message);
      if !finalized {
        PadCompletesMessage(View(), message);
        HashPadBlocks(fed, PadBlocks(View()));
        PadState(View());
        Pad();
        finalized := true;
      }
      var out := new byte[32];
      StoreState(out);
      hash := out[..];
    }

    /** The loop of `CalculateHex`. */
    static method Print(hash: seq<byte>) returns (text: string)
      ensures text == Hex.Encode(hash)
    {
      hide Hex.Encode, Hex.EncodeByte;
      text := "";
      Hex.EncodeNothing();
      for i := 0 to |hash|
        invariant text == Hex.Encode(hash[..i])
      {
        Hex.EncodeOneMore(hash[..i], hash[i]);
        assert hash[..i + 1] == hash[..i] + [hash[i]];
        text := text + Hex.EncodeByte(hash[i]);
      }
      assert hash[..|hash|] == hash;
    }

    /** Starts over, hashes `input` and prints the digest, whatever the object did before. */
    method CalculateHex(input: seq<byte>) returns (text: string)
      requires Valid()
      modifies this, buffer, state
      ensures Valid() && finalized
      ensures View() == AfterHex(old(View()), input) && text == HexOutput(old(View()), input)
      ensures message == input && text == Hex.Encode(Digest(input))
    {
      hide HashBlocks, PadMessage, WholeBlocks, Represents, Digest, StoreWords;
      hide HasherModel.Update, HasherModel.Finalize, Fresh, Hex.Encode;
      Reset();
      Update(input);
      var hash := Finalize();
      text := Print(hash);
    }
  }
}
