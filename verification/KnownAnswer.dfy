/**
 One value of the hash, computed in the logic: SHA-256 of "abc", the one-block example that NIST
 publishes with FIPS 180-4. It fixes what general laws leave open, such as the rotation amounts and the
 offsets in the schedule. Eight rounds at a time, all words are literals.
 */
module KnownAnswer {
  import opened Words
  import opened Fips180
  import opened Padding
  import opened Evaluation

  /** Its padded message, one block, as words. */
  function Abc(): (m: seq<word>)
    ensures |m| == 16
  {
    [0x61626380, 0x00000000, 0x00000000, 0x00000000, 0x00000000, 0x00000000, 0x00000000, 0x00000000,
     0x00000000, 0x00000000, 0x00000000, 0x00000000, 0x00000000, 0x00000000, 0x00000000, 0x00000018]
  }

  /** Before round `t` of the block the registers are `r`, and `v` and `w` are the next schedule words. */
  predicate At(t: nat, r: Regs, v: Regs, w: Regs) {
    t <= |K| && Rounds(Load(IV), Abc(), t) == r && Scheduled(Abc(), t, v, w)
  }

  lemma Advance(t: nat,
                r0: word, r1: word, r2: word, r3: word, r4: word, r5: word, r6: word, r7: word,
                k0: word, k1: word, k2: word, k3: word, k4: word, k5: word, k6: word, k7: word,
                v0: word, v1: word, v2: word, v3: word, v4: word, v5: word, v6: word, v7: word,
                w0: word, w1: word, w2: word, w3: word, w4: word, w5: word, w6: word, w7: word,
                s0: word, s1: word, s2: word, s3: word, s4: word, s5: word, s6: word, s7: word,
                x0: word, x1: word, x2: word, x3: word, x4: word, x5: word, x6: word, x7: word)
    requires t + 8 <= |K|
    requires At(t, Regs(r0, r1, r2, r3, r4, r5, r6, r7),
                Regs(v0, v1, v2, v3, v4, v5, v6, v7), Regs(w0, w1, w2, w3, w4, w5, w6, w7))
    requires Constants(t, 8, Regs(k0, k1, k2, k3, k4, k5, k6, k7))
    requires Run(8, r0, r1, r2, r3, r4, r5, r6, r7, k0, k1, k2, k3, k4, k5, k6, k7,
                 v0, v1, v2, v3, v4, v5, v6, v7, w0, w1, w2, w3, w4, w5, w6, w7)
          == Snapshot(Regs(s0, s1, s2, s3, s4, s5, s6, s7),
                      Regs(w0, w1, w2, w3, w4, w5, w6, w7),
                      Regs(x0, x1, x2, x3, x4, x5, x6, x7))
    ensures At(t + 8, Regs(s0, s1, s2, s3, s4, s5, s6, s7),
               Regs(w0, w1, w2, w3, w4, w5, w6, w7), Regs(x0, x1, x2, x3, x4, x5, x6, x7))
  {
    hide Run, Constants, Scheduled, Rounds, K, Abc;
    var k, v := Regs(k0, k1, k2, k3, k4, k5, k6, k7), Regs(v0, v1, v2, v3, v4, v5, v6, v7);
    RunIsRounds(Abc(), Load(IV), t, 8, k, v, Regs(w0, w1, w2, w3, w4, w5, w6, w7));
  }

  lemma Begin()
    ensures At(0, Regs(0x6a09e667, 0xbb67ae85, 0x3c6ef372, 0xa54ff53a, 0x510e527f, 0x9b05688c, 0x1f83d9ab, 0x5be0cd19),
               Regs(0x61626380, 0x00000000, 0x00000000, 0x00000000, 0x00000000, 0x00000000, 0x00000000, 0x00000000),
               Regs(0x00000000, 0x00000000, 0x00000000, 0x00000000, 0x00000000, 0x00000000, 0x00000000, 0x00000018))
  {
    hide K;
  }

  lemma ConstantsTo16()
    ensures
      Constants(0, 8,
        Regs(0x428a2f98, 0x71374491, 0xb5c0fbcf, 0xe9b5dba5, 0x3956c25b, 0x59f111f1, 0x923f82a4, 0xab1c5ed5))
    ensures
      Constants(8, 8,
        Regs(0xd807aa98, 0x12835b01, 0x243185be, 0x550c7dc3, 0x72be5d74, 0x80deb1fe, 0x9bdc06a7, 0xc19bf174))
  {
  }

  lemma ConstantsTo32()
    ensures
      Constants(16, 8,
        Regs(0xe49b69c1, 0xefbe4786, 0x0fc19dc6, 0x240ca1cc, 0x2de92c6f, 0x4a7484aa, 0x5cb0a9dc, 0x76f988da))
    ensures
      Constants(24, 8,
        Regs(0x983e5152, 0xa831c66d, 0xb00327c8, 0xbf597fc7, 0xc6e00bf3, 0xd5a79147, 0x06ca6351, 0x14292967))
  {
  }

  lemma ConstantsTo48()
    ensures
      Constants(32, 8,
        Regs(0x27b70a85, 0x2e1b2138, 0x4d2c6dfc, 0x53380d13, 0x650a7354, 0x766a0abb, 0x81c2c92e, 0x92722c85))
    ensures
      Constants(40, 8,
        Regs(0xa2bfe8a1, 0xa81a664b, 0xc24b8b70, 0xc76c51a3, 0xd192e819, 0xd6990624, 0xf40e3585, 0x106aa070))
  {
  }

  lemma ConstantsTo64()
    ensures
      Constants(48, 8,
        Regs(0x19a4c116, 0x1e376c08, 0x2748774c, 0x34b0bcb5, 0x391c0cb3, 0x4ed8aa4a, 0x5b9cca4f, 0x682e6ff3))
    ensures
      Constants(56, 8,
        Regs(0x748f82ee, 0x78a5636f, 0x84c87814, 0x8cc70208, 0x90befffa, 0xa4506ceb, 0xbef9a3f7, 0xc67178f2))
  {
  }

  lemma ConstantCount()
    ensures |K| == 64
  {
  }

  /** The 64 rounds over the block. */
  lemma RoundsOfAbc()
    ensures At(64, Regs(0x506e3058, 0xd39a2165, 0x04d24d6c, 0xb85e2ce9, 0x5ef50f24, 0xfb121210, 0x948d25b6, 0x961f4894),
               Regs(0xb80a5a34, 0x1ce797d5, 0x310fc1d7, 0xa31968ce, 0x7d8ce042, 0xd5892c87, 0x0ef2e48b, 0x86476aaa),
               Regs(0xfb3bcd9a, 0xe1abf701, 0x9cf194d1, 0x47ad031d, 0xaa812721, 0x04360d9c, 0xdb5ae899, 0xbe66bc93))
  {
    hide At, Constants, K;
    ConstantCount();
    ConstantsTo16();
    ConstantsTo32();
    ConstantsTo48();
    ConstantsTo64();
    Begin();
    Advance(0,
            0x6a09e667, 0xbb67ae85, 0x3c6ef372, 0xa54ff53a, 0x510e527f, 0x9b05688c, 0x1f83d9ab, 0x5be0cd19,
            0x428a2f98, 0x71374491, 0xb5c0fbcf, 0xe9b5dba5, 0x3956c25b, 0x59f111f1, 0x923f82a4, 0xab1c5ed5,
            0x61626380, 0x00000000, 0x00000000, 0x00000000, 0x00000000, 0x00000000, 0x00000000, 0x00000000,
            0x00000000, 0x00000000, 0x00000000, 0x00000000, 0x00000000, 0x00000000, 0x00000000, 0x00000018,
            0x85a07b5f, 0xe5030380, 0x2b4209f5, 0x04409a6a, 0x0c657a79, 0x9b27a401, 0x714260ad, 0x43ada245,
            0x61626380, 0x000f0000, 0x7da86405, 0x600003c6, 0x3e9d7b78, 0x0183fc00, 0x12dcbfdb, 0xe2e2c38e);
    Advance(8,
            0x85a07b5f, 0xe5030380, 0x2b4209f5, 0x04409a6a, 0x0c657a79, 0x9b27a401, 0x714260ad, 0x43ada245,
            0xd807aa98, 0x12835b01, 0x243185be, 0x550c7dc3, 0x72be5d74, 0x80deb1fe, 0x9bdc06a7, 0xc19bf174,
            0x00000000, 0x00000000, 0x00000000, 0x00000000, 0x00000000, 0x00000000, 0x00000000, 0x00000018,
            0x61626380, 0x000f0000, 0x7da86405, 0x600003c6, 0x3e9d7b78, 0x0183fc00, 0x12dcbfdb, 0xe2e2c38e,
            0xb0fa238e, 0xc0645fde, 0xd932eb16, 0x87912990, 0x07590dcd, 0x0b92f20c, 0x745a48de, 0x1e578218,
            0xc8215c1a, 0xb73679a2, 0xe5bc3909, 0x32663c5b, 0x9d209d67, 0xec8726cb, 0x702138a4, 0xd3b7973b);
    Advance(16,
            0xb0fa238e, 0xc0645fde, 0xd932eb16, 0x87912990, 0x07590dcd, 0x0b92f20c, 0x745a48de, 0x1e578218,
            0xe49b69c1, 0xefbe4786, 0x0fc19dc6, 0x240ca1cc, 0x2de92c6f, 0x4a7484aa, 0x5cb0a9dc, 0x76f988da,
            0x61626380, 0x000f0000, 0x7da86405, 0x600003c6, 0x3e9d7b78, 0x0183fc00, 0x12dcbfdb, 0xe2e2c38e,
            0xc8215c1a, 0xb73679a2, 0xe5bc3909, 0x32663c5b, 0x9d209d67, 0xec8726cb, 0x702138a4, 0xd3b7973b,
            0xc5d53d8d, 0xa7a3623f, 0xc2606d6d, 0x9dc68b63, 0xaa47c347, 0x49f5114a, 0xe1257970, 0x8ada8930,
            0x93f5997f, 0x3b68ba73, 0xaff4ffc1, 0xf10a5c62, 0x0a8b3996, 0x72af830a, 0x9409e33e, 0x24641522);
    Advance(24,
            0xc5d53d8d, 0xa7a3623f, 0xc2606d6d, 0x9dc68b63, 0xaa47c347, 0x49f5114a, 0xe1257970, 0x8ada8930,
            0x983e5152, 0xa831c66d, 0xb00327c8, 0xbf597fc7, 0xc6e00bf3, 0xd5a79147, 0x06ca6351, 0x14292967,
            0xc8215c1a, 0xb73679a2, 0xe5bc3909, 0x32663c5b, 0x9d209d67, 0xec8726cb, 0x702138a4, 0xd3b7973b,
            0x93f5997f, 0x3b68ba73, 0xaff4ffc1, 0xf10a5c62, 0x0a8b3996, 0x72af830a, 0x9409e33e, 0x24641522,
            0x73b33bf5, 0xea992a22, 0xa0060b30, 0x363482c9, 0xba591112, 0x0109ab3a, 0xade79437, 0x6112a3b7,
            0x9f47bf94, 0xf0a64f5a, 0x3e246a79, 0x27333ba3, 0x0c4763f2, 0x840abf27, 0x7a290d5d, 0x065c43da);
    Advance(32,
            0x73b33bf5, 0xea992a22, 0xa0060b30, 0x363482c9, 0xba591112, 0x0109ab3a, 0xade79437, 0x6112a3b7,
            0x27b70a85, 0x2e1b2138, 0x4d2c6dfc, 0x53380d13, 0x650a7354, 0x766a0abb, 0x81c2c92e, 0x92722c85,
            0x93f5997f, 0x3b68ba73, 0xaff4ffc1, 0xf10a5c62, 0x0a8b3996, 0x72af830a, 0x9409e33e, 0x24641522,
            0x9f47bf94, 0xf0a64f5a, 0x3e246a79, 0x27333ba3, 0x0c4763f2, 0x840abf27, 0x7a290d5d, 0x065c43da,
            0x79ea687a, 0x6dc57a8a, 0x34df1604, 0x41a65cb1, 0x1efbc0a0, 0xf0781bc8, 0xa507a53d, 0x0772a26b,
            0xfb3e89cb, 0xcc7617db, 0xb9e66c34, 0xa9993667, 0x84badedd, 0xc21462bc, 0x1487472c, 0xb20f7a99);
    Advance(40,
            0x79ea687a, 0x6dc57a8a, 0x34df1604, 0x41a65cb1, 0x1efbc0a0, 0xf0781bc8, 0xa507a53d, 0x0772a26b,
            0xa2bfe8a1, 0xa81a664b, 0xc24b8b70, 0xc76c51a3, 0xd192e819, 0xd6990624, 0xf40e3585, 0x106aa070,
            0x9f47bf94, 0xf0a64f5a, 0x3e246a79, 0x27333ba3, 0x0c4763f2, 0x840abf27, 0x7a290d5d, 0x065c43da,
            0xfb3e89cb, 0xcc7617db, 0xb9e66c34, 0xa9993667, 0x84badedd, 0xc21462bc, 0x1487472c, 0xb20f7a99,
            0x4172328d, 0xa14c14b0, 0x72ab4b91, 0x26628815, 0xfecf0bc6, 0xd57b94a9, 0xb7755da1, 0xa80f11f0,
            0xef57b9cd, 0xebe6b238, 0x9fe3095e, 0x78bc8d4b, 0xa43fcf15, 0x668b2ff8, 0xeeaba2cc, 0x12b1edeb);
    Advance(48,
            0x4172328d, 0xa14c14b0, 0x72ab4b91, 0x26628815, 0xfecf0bc6, 0xd57b94a9, 0xb7755da1, 0xa80f11f0,
            0x19a4c116, 0x1e376c08, 0x2748774c, 0x34b0bcb5, 0x391c0cb3, 0x4ed8aa4a, 0x5b9cca4f, 0x682e6ff3,
            0xfb3e89cb, 0xcc7617db, 0xb9e66c34, 0xa9993667, 0x84badedd, 0xc21462bc, 0x1487472c, 0xb20f7a99,
            0xef57b9cd, 0xebe6b238, 0x9fe3095e, 0x78bc8d4b, 0xa43fcf15, 0x668b2ff8, 0xeeaba2cc, 0x12b1edeb,
            0x38cc9913, 0x3ec45cdb, 0xf5702fdb, 0x101fd28f, 0x54cb266b, 0xe50e1b4f, 0x9f4787c3, 0x529e7d00,
            0xb80a5a34, 0x1ce797d5, 0x310fc1d7, 0xa31968ce, 0x7d8ce042, 0xd5892c87, 0x0ef2e48b, 0x86476aaa);
    Advance(56,
            0x38cc9913, 0x3ec45cdb, 0xf5702fdb, 0x101fd28f, 0x54cb266b, 0xe50e1b4f, 0x9f4787c3, 0x529e7d00,
            0x748f82ee, 0x78a5636f, 0x84c87814, 0x8cc70208, 0x90befffa, 0xa4506ceb, 0xbef9a3f7, 0xc67178f2,
            0xef57b9cd, 0xebe6b238, 0x9fe3095e, 0x78bc8d4b, 0xa43fcf15, 0x668b2ff8, 0xeeaba2cc, 0x12b1edeb,
            0xb80a5a34, 0x1ce797d5, 0x310fc1d7, 0xa31968ce, 0x7d8ce042, 0xd5892c87, 0x0ef2e48b, 0x86476aaa,
            0x506e3058, 0xd39a2165, 0x04d24d6c, 0xb85e2ce9, 0x5ef50f24, 0xfb121210, 0x948d25b6, 0x961f4894,
            0xfb3bcd9a, 0xe1abf701, 0x9cf194d1, 0x47ad031d, 0xaa812721, 0x04360d9c, 0xdb5ae899, 0xbe66bc93);
  }

  lemma CompressAbc(block: seq<byte>)
    requires |block| == 64 && LoadWords(block) == Abc()
    ensures Compress(IV, block)
         == [0xba7816bf, 0x8f01cfea, 0x414140de, 0x5dae2223, 0xb00361a3, 0x96177a9c, 0xb410ff61, 0xf20015ad]
  {
    hide K, Rounds, Abc, Scheduled, LoadWords;
    ConstantCount();
    RoundsOfAbc();
  }

  function Message(): seq<byte> {
    [0x61, 0x62, 0x63]
  }

  function Block(): (b: seq<byte>)
    ensures |b| == 64
  {
    Message() + [0x80] + Zeros(59) + [0x18]
  }

  lemma {:induction false} ZerosValue(n: nat)
    ensures BigEndianValue(Zeros(n)) == 0
  {
    if n == 0 {
      assert Zeros(n) == [];
    } else {
      ZerosValue(n - 1);
      assert Zeros(n)[..n - 1] == Zeros(n - 1);
    }
  }

  /** The message as padded: the byte 0x80, zero bytes, and 24 bits. */
  lemma BlockIsPadded()
    ensures PadMessage(Message()) == Block()
  {
    var b, tail := Block(), Zeros(7) + [0x18];
    PadMessageIff(Message(), b);
    hide PadMessage, Mod61;
    assert b[56..] == tail;
    ZerosValue(7);
    assert tail[..7] == Zeros(7);
    assert BigEndianValue(tail) == 256 * BigEndianValue(tail[..7]) + 0x18;
    assert b[..3] == Message();
  }

  lemma BlockAsWords()
    ensures LoadWords(Block()) == Abc()
  {
    var b := Block();
    assert b[0..4] == [0x61, 0x62, 0x63, 0x80];
    assert b[60..64] == [0, 0, 0, 0x18];
    forall i | 1 <= i < 15
      ensures LoadWord(b[4 * i..4 * i + 4]) == 0
    {
      assert b[4 * i..4 * i + 4] == [0, 0, 0, 0];
    }
  }

  /** The published value. */
  lemma DigestOfAbc()
    ensures Digest(Message())
         == StoreWords(
              [0xba7816bf, 0x8f01cfea, 0x414140de, 0x5dae2223, 0xb00361a3, 0x96177a9c, 0xb410ff61, 0xf20015ad])
  {
    hide Compress, LoadWords, Abc, PadMessage, Block, IV, StoreWords;
    BlockIsPadded();
    BlockAsWords();
    CompressAbc(Block());
    assert Block()[..0] == [] && Block()[0..] == Block();
  }
}
