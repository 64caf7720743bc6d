/**
 Where the constants of sections 4.2.2 and 5.3.3 of FIPS 180-4 come from: the first 32 bits of the
 fractional parts of the cube roots of the first 64 primes, and of the square roots of the first eight.
 */
module RootConstants {
  import opened Words
  import opened Fips180

  // ---------------------------------------------------------------- the first 64 primes

  ghost predicate IsPrime(n: nat) {
    n >= 2 && forall d :: 2 <= d < n ==> n % d != 0
  }

  const Primes: seq<nat> :=
    [2, 3, 5, 7, 11, 13, 17, 19] +
    [23, 29, 31, 37, 41, 43, 47, 53] +
    [59, 61, 67, 71, 73, 79, 83, 89] +
    [97, 101, 103, 107, 109, 113, 127, 131] +
    [137, 139, 149, 151, 157, 163, 167, 173] +
    [179, 181, 191, 193, 197, 199, 211, 223] +
    [227, 229, 233, 239, 241, 251, 257, 263] +
    [269, 271, 277, 281, 283, 293, 307, 311]

  /** No prime below 19 divides `n`, unless it is `n`. */
  predicate Sifted(n: nat) {
    && n >= 2
    && (n <= 2 || n % 2 != 0) && (n <= 3 || n % 3 != 0) && (n <= 5 || n % 5 != 0) && (n <= 7 || n % 7 != 0)
    && (n <= 11 || n % 11 != 0) && (n <= 13 || n % 13 != 0) && (n <= 17 || n % 17 != 0)
  }

  lemma Multiply(k: nat, e: nat)
    requires k > 0
    ensures k * e >= e
  {
  }

  lemma NoRemainder(d: nat, e: nat, q: nat, r: nat)
    requires d * e == q * e + r && r < e
    ensures r == 0
  {
    if d > q {
      Multiply(d - q, e);
    } else {
      assert (q - d) * e + r == 0;
    }
  }

  lemma Multiple(n: nat, d: nat, e: nat)
    requires n == d * e && e > 0
    ensures n % e == 0
  {
    var q, r := n / e, n % e;
    assert n == q * e + r;
    NoRemainder(d, e, q, r);
  }

  lemma Product(d: nat, e: nat)
    requires d >= 19 && e >= 19
    ensures d * e >= 361
  {
  }

  lemma Transitive(n: nat, d: nat, e: nat)
    requires d > 0 && e > 0 && n % d == 0 && d % e == 0
    ensures n % e == 0
  {
    var q, r := n / d, d / e;
    assert n == q * (r * e) == (q * r) * e;
    Multiple(n, q * r, e);
  }

  lemma SmallDivisor(n: nat, d: nat)
    requires 2 <= d < 19 && d < n && n % d == 0
    ensures !Sifted(n)
  {
    if d % 2 == 0 {
      Transitive(n, d, 2);
    } else if d % 3 == 0 {
      Transitive(n, d, 3);
    }
  }

  lemma NotSifted(n: nat, d: nat)
    requires n < 361 && 2 <= d < n && n % d == 0
    ensures !Sifted(n)
  {
    hide Sifted;
    var e := n / d;
    assert n == d * e && 2 <= e < n;
    if Sifted(n) {
      if d < 19 {
        SmallDivisor(n, d);
      } else if e < 19 {
        Multiple(n, d, e);
        SmallDivisor(n, e);
      } else {
        Product(d, e);
      }
    }
  }

  /** Below 361 the sifted numbers are the primes. */
  lemma SiftedIffPrime(n: nat)
    requires n < 361
    ensures Sifted(n) <==> IsPrime(n)
  {
    if Sifted(n) {
      forall d | 2 <= d < n
        ensures n % d != 0
      {
        if n % d == 0 {
          NotSifted(n, d);
        }
      }
    }
  }

  /** `q` is the first prime after `p`. */
  ghost predicate IsNextPrime(p: nat, q: nat) {
    p < q && IsPrime(q) && forall n :: p < n < q ==> !IsPrime(n)
  }

  predicate NoneBetween(p: nat, q: nat)
    decreases q - p
  {
    q <= p + 1 || (!Sifted(p + 1) && NoneBetween(p + 1, q))
  }

  predicate Next(p: nat, q: nat) {
    p < q && Sifted(q) && NoneBetween(p, q)
  }

  lemma {:induction false} NoneBetweenMeans(p: nat, q: nat, n: nat)
    requires NoneBetween(p, q) && p < n < q
    ensures !Sifted(n)
    decreases n - p
  {
    if p + 1 == n {
      assert !Sifted(p + 1);
    } else {
      NoneBetweenMeans(p + 1, q, n);
    }
  }

  lemma NextIsNextPrime(p: nat, q: nat)
    requires Next(p, q) && q < 361
    ensures IsNextPrime(p, q)
  {
    hide Sifted, IsPrime;
    SiftedIffPrime(q);
    forall n | p < n < q
      ensures !IsPrime(n)
    {
      SiftedIffPrime(n);
      NoneBetweenMeans(p, q, n);
    }
  }

  lemma StepsTo23()
    ensures Next(2, 3) && Next(3, 5) && Next(5, 7) && Next(7, 11)
    ensures Next(11, 13) && Next(13, 17) && Next(17, 19) && Next(19, 23)
  {
  }

  lemma StepsTo59()
    ensures Next(23, 29) && Next(29, 31) && Next(31, 37) && Next(37, 41)
    ensures Next(41, 43) && Next(43, 47) && Next(47, 53) && Next(53, 59)
  {
  }

  lemma StepsTo97()
    ensures Next(59, 61) && Next(61, 67) && Next(67, 71) && Next(71, 73)
    ensures Next(73, 79) && Next(79, 83) && Next(83, 89) && Next(89, 97)
  {
  }

  lemma StepsTo137()
    ensures Next(97, 101) && Next(101, 103) && Next(103, 107) && Next(107, 109)
    ensures Next(109, 113) && Next(113, 127) && Next(127, 131) && Next(131, 137)
  {
  }

  lemma StepsTo179()
    ensures Next(137, 139) && Next(139, 149) && Next(149, 151) && Next(151, 157)
    ensures Next(157, 163) && Next(163, 167) && Next(167, 173) && Next(173, 179)
  {
  }

  lemma StepsTo227()
    ensures Next(179, 181) && Next(181, 191) && Next(191, 193) && Next(193, 197)
    ensures Next(197, 199) && Next(199, 211) && Next(211, 223) && Next(223, 227)
  {
  }

  lemma StepsTo269()
    ensures Next(227, 229) && Next(229, 233) && Next(233, 239) && Next(239, 241)
    ensures Next(241, 251) && Next(251, 257) && Next(257, 263) && Next(263, 269)
  {
  }

  lemma StepsTo311()
    ensures Next(269, 271) && Next(271, 277) && Next(277, 281) && Next(281, 283)
    ensures Next(283, 293) && Next(293, 307) && Next(307, 311)
  {
  }

  lemma PrimeStep(i: nat)
    requires i < 63
    ensures |Primes| == 64 && Next(Primes[i], Primes[i + 1])
  {
    hide Next;
    StepsTo23();
    StepsTo59();
    StepsTo97();
    StepsTo137();
    StepsTo179();
    StepsTo227();
    StepsTo269();
    StepsTo311();
  }

  /** They are the primes in order, from 2 on. */
  lemma PrimesAreFirst()
    ensures |Primes| == 64 && Primes[0] == 2
    ensures forall i :: 0 <= i < 63 ==> IsNextPrime(Primes[i], Primes[i + 1])
  {
    forall i | 0 <= i < 63
      ensures IsNextPrime(Primes[i], Primes[i + 1])
    {
      PrimeStep(i);
      NextIsNextPrime(Primes[i], Primes[i + 1]);
    }
  }

  // ---------------------------------------------------------------- the roots

  /** `n` is the square root of `p` with 32 bits after the point, rounded down. */
  predicate IsSquareRoot(n: nat, p: nat) {
    n * n <= p * 0x1_0000_0000_0000_0000 < (n + 1) * (n + 1)
  }

  /** `n` is the cube root of `p` with 32 bits after the point, rounded down. */
  predicate IsCubeRoot(n: nat, p: nat) {
    n * n * n <= p * 0x1_0000_0000_0000_0000_0000_0000 < (n + 1) * (n + 1) * (n + 1)
  }

  /** The 32 bits after the point. */
  predicate Fraction(n: nat, w: word) {
    n % 0x1_0000_0000 == w as nat
  }

  ghost predicate FromSquareRoot(w: word, p: nat) {
    exists n: nat :: IsSquareRoot(n, p) && Fraction(n, w)
  }

  ghost predicate FromCubeRoot(w: word, p: nat) {
    exists n: nat :: IsCubeRoot(n, p) && Fraction(n, w)
  }

  const SquareRoots: seq<nat> :=
    [0x1_6a09e667, 0x1_bb67ae85, 0x2_3c6ef372, 0x2_a54ff53a, 0x3_510e527f, 0x3_9b05688c, 0x4_1f83d9ab, 0x4_5be0cd19]

  const CubeRoots: seq<nat> :=
    [0x1_428a2f98, 0x1_71374491, 0x1_b5c0fbcf, 0x1_e9b5dba5, 0x2_3956c25b, 0x2_59f111f1, 0x2_923f82a4, 0x2_ab1c5ed5] +
    [0x2_d807aa98, 0x3_12835b01, 0x3_243185be, 0x3_550c7dc3, 0x3_72be5d74, 0x3_80deb1fe, 0x3_9bdc06a7, 0x3_c19bf174] +
    [0x3_e49b69c1, 0x3_efbe4786, 0x4_0fc19dc6, 0x4_240ca1cc, 0x4_2de92c6f, 0x4_4a7484aa, 0x4_5cb0a9dc, 0x4_76f988da] +
    [0x4_983e5152, 0x4_a831c66d, 0x4_b00327c8, 0x4_bf597fc7, 0x4_c6e00bf3, 0x4_d5a79147, 0x5_06ca6351, 0x5_14292967] +
    [0x5_27b70a85, 0x5_2e1b2138, 0x5_4d2c6dfc, 0x5_53380d13, 0x5_650a7354, 0x5_766a0abb, 0x5_81c2c92e, 0x5_92722c85] +
    [0x5_a2bfe8a1, 0x5_a81a664b, 0x5_c24b8b70, 0x5_c76c51a3, 0x5_d192e819, 0x5_d6990624, 0x5_f40e3585, 0x6_106aa070] +
    [0x6_19a4c116, 0x6_1e376c08, 0x6_2748774c, 0x6_34b0bcb5, 0x6_391c0cb3, 0x6_4ed8aa4a, 0x6_5b9cca4f, 0x6_682e6ff3] +
    [0x6_748f82ee, 0x6_78a5636f, 0x6_84c87814, 0x6_8cc70208, 0x6_90befffa, 0x6_a4506ceb, 0x6_bef9a3f7, 0x6_c67178f2]

  lemma SquareRootsOfPrimes()
    ensures IsSquareRoot(0x1_6a09e667, 2) && IsSquareRoot(0x1_bb67ae85, 3)
    ensures IsSquareRoot(0x2_3c6ef372, 5) && IsSquareRoot(0x2_a54ff53a, 7)
    ensures IsSquareRoot(0x3_510e527f, 11) && IsSquareRoot(0x3_9b05688c, 13)
    ensures IsSquareRoot(0x4_1f83d9ab, 17) && IsSquareRoot(0x4_5be0cd19, 19)
  {
  }

  lemma CubeRootsTo53()
    ensures IsCubeRoot(0x1_428a2f98, 2) && IsCubeRoot(0x1_71374491, 3)
    ensures IsCubeRoot(0x1_b5c0fbcf, 5) && IsCubeRoot(0x1_e9b5dba5, 7)
    ensures IsCubeRoot(0x2_3956c25b, 11) && IsCubeRoot(0x2_59f111f1, 13)
    ensures IsCubeRoot(0x2_923f82a4, 17) && IsCubeRoot(0x2_ab1c5ed5, 19)
    ensures IsCubeRoot(0x2_d807aa98, 23) && IsCubeRoot(0x3_12835b01, 29)
    ensures IsCubeRoot(0x3_243185be, 31) && IsCubeRoot(0x3_550c7dc3, 37)
    ensures IsCubeRoot(0x3_72be5d74, 41) && IsCubeRoot(0x3_80deb1fe, 43)
    ensures IsCubeRoot(0x3_9bdc06a7, 47) && IsCubeRoot(0x3_c19bf174, 53)
  {
  }

  lemma CubeRootsTo131()
    ensures IsCubeRoot(0x3_e49b69c1, 59) && IsCubeRoot(0x3_efbe4786, 61)
    ensures IsCubeRoot(0x4_0fc19dc6, 67) && IsCubeRoot(0x4_240ca1cc, 71)
    ensures IsCubeRoot(0x4_2de92c6f, 73) && IsCubeRoot(0x4_4a7484aa, 79)
    ensures IsCubeRoot(0x4_5cb0a9dc, 83) && IsCubeRoot(0x4_76f988da, 89)
    ensures IsCubeRoot(0x4_983e5152, 97) && IsCubeRoot(0x4_a831c66d, 101)
    ensures IsCubeRoot(0x4_b00327c8, 103) && IsCubeRoot(0x4_bf597fc7, 107)
    ensures IsCubeRoot(0x4_c6e00bf3, 109) && IsCubeRoot(0x4_d5a79147, 113)
    ensures IsCubeRoot(0x5_06ca6351, 127) && IsCubeRoot(0x5_14292967, 131)
  {
  }

  lemma CubeRootsTo223()
    ensures IsCubeRoot(0x5_27b70a85, 137) && IsCubeRoot(0x5_2e1b2138, 139)
    ensures IsCubeRoot(0x5_4d2c6dfc, 149) && IsCubeRoot(0x5_53380d13, 151)
    ensures IsCubeRoot(0x5_650a7354, 157) && IsCubeRoot(0x5_766a0abb, 163)
    ensures IsCubeRoot(0x5_81c2c92e, 167) && IsCubeRoot(0x5_92722c85, 173)
    ensures IsCubeRoot(0x5_a2bfe8a1, 179) && IsCubeRoot(0x5_a81a664b, 181)
    ensures IsCubeRoot(0x5_c24b8b70, 191) && IsCubeRoot(0x5_c76c51a3, 193)
    ensures IsCubeRoot(0x5_d192e819, 197) && IsCubeRoot(0x5_d6990624, 199)
    ensures IsCubeRoot(0x5_f40e3585, 211) && IsCubeRoot(0x6_106aa070, 223)
  {
  }

  lemma CubeRootsTo311()
    ensures IsCubeRoot(0x6_19a4c116, 227) && IsCubeRoot(0x6_1e376c08, 229)
    ensures IsCubeRoot(0x6_2748774c, 233) && IsCubeRoot(0x6_34b0bcb5, 239)
    ensures IsCubeRoot(0x6_391c0cb3, 241) && IsCubeRoot(0x6_4ed8aa4a, 251)
    ensures IsCubeRoot(0x6_5b9cca4f, 257) && IsCubeRoot(0x6_682e6ff3, 263)
    ensures IsCubeRoot(0x6_748f82ee, 269) && IsCubeRoot(0x6_78a5636f, 271)
    ensures IsCubeRoot(0x6_84c87814, 277) && IsCubeRoot(0x6_8cc70208, 281)
    ensures IsCubeRoot(0x6_90befffa, 283) && IsCubeRoot(0x6_a4506ceb, 293)
    ensures IsCubeRoot(0x6_bef9a3f7, 307) && IsCubeRoot(0x6_c67178f2, 311)
  {
  }

  /** Round constant `i` is the fraction of the cube root of prime `i`. */
  predicate RoundConstant(i: nat)
    requires i < 64
  {
    && |Primes| == |CubeRoots| == |K| == 64
    && IsCubeRoot(CubeRoots[i], Primes[i]) && Fraction(CubeRoots[i], K[i])
  }

  predicate RoundConstants(n: nat)
    requires n <= 64
  {
    n == 0 || (RoundConstants(n - 1) && RoundConstant(n - 1))
  }

  lemma NoRoundConstants()
    ensures RoundConstants(0)
  {
  }

  lemma {:induction false} AmongRoundConstants(n: nat, i: nat)
    requires i < n <= 64 && RoundConstants(n)
    ensures RoundConstant(i)
  {
    if i == n - 1 {
      assert RoundConstant(n - 1);
    } else {
      AmongRoundConstants(n - 1, i);
    }
  }

  lemma RoundConstantsTo8()
    requires RoundConstants(0)
    ensures RoundConstants(8)
  {
    hide IsCubeRoot;
    CubeRootsTo53();
  }

  lemma RoundConstantsTo16()
    requires RoundConstants(8)
    ensures RoundConstants(16)
  {
    hide IsCubeRoot;
    CubeRootsTo53();
  }

  lemma RoundConstantsTo24()
    requires RoundConstants(16)
    ensures RoundConstants(24)
  {
    hide IsCubeRoot;
    CubeRootsTo131();
  }

  lemma RoundConstantsTo32()
    requires RoundConstants(24)
    ensures RoundConstants(32)
  {
    hide IsCubeRoot;
    CubeRootsTo131();
  }

  lemma RoundConstantsTo40()
    requires RoundConstants(32)
    ensures RoundConstants(40)
  {
    hide IsCubeRoot;
    CubeRootsTo223();
  }

  lemma RoundConstantsTo48()
    requires RoundConstants(40)
    ensures RoundConstants(48)
  {
    hide IsCubeRoot;
    CubeRootsTo223();
  }

  lemma RoundConstantsTo56()
    requires RoundConstants(48)
    ensures RoundConstants(56)
  {
    hide IsCubeRoot;
    CubeRootsTo311();
  }

  lemma RoundConstantsTo64()
    requires RoundConstants(56)
    ensures RoundConstants(64)
  {
    hide IsCubeRoot;
    CubeRootsTo311();
  }

  lemma InitialValueAt(i: nat)
    requires i < 8
    ensures |Primes| == 64 && |SquareRoots| == 8
    ensures IsSquareRoot(SquareRoots[i], Primes[i]) && Fraction(SquareRoots[i], IV[i])
  {
    hide IsSquareRoot;
    SquareRootsOfPrimes();
  }

  lemma AllRoundConstants()
    ensures RoundConstants(64)
  {
    hide RoundConstants;
    assert RoundConstants(0) by { NoRoundConstants(); }
    RoundConstantsTo8();
    RoundConstantsTo16();
    RoundConstantsTo24();
    RoundConstantsTo32();
    RoundConstantsTo40();
    RoundConstantsTo48();
    RoundConstantsTo56();
    RoundConstantsTo64();
  }

  /** The initial hash value and the round constants are what the standard defines them to be. */
  lemma ConstantsAreRoots()
    ensures |Primes| == |K| == 64
    ensures forall i :: 0 <= i < 8 ==> FromSquareRoot(IV[i], Primes[i])
    ensures forall i :: 0 <= i < 64 ==> FromCubeRoot(K[i], Primes[i])
  {
    hide IsSquareRoot, IsCubeRoot, Fraction, K, IV, Primes, SquareRoots, CubeRoots, RoundConstants;
    AllRoundConstants();
    AmongRoundConstants(64, 0);
    forall i | 0 <= i < 8
      ensures FromSquareRoot(IV[i], Primes[i])
    {
      InitialValueAt(i);
    }
    forall i | 0 <= i < 64
      ensures FromCubeRoot(K[i], Primes[i])
    {
      AmongRoundConstants(64, i);
    }
  }
}
