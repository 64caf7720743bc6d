/**
 The rounds and the message schedule in a form that the verifier can evaluate on literal words: one
 function of words whose steps are built-in bit operations. It is proved to be the standard's rounds.
 */
module Evaluation {
  import opened Words
  import opened Fips180

  /** The registers, and sixteen consecutive schedule words. */
  datatype Snapshot = Snapshot(r: Regs, v: Regs, w: Regs)

  function Xor3(x: word, y: word, z: word): word { x ^ y ^ z }

  lemma BigSigma0IsXor(x: word)
    ensures BigSigma0(x) == Xor3(RotateRight(x, 2), RotateRight(x, 13), RotateRight(x, 22))
  {
    hide RotateRight;
  }

  lemma BigSigma1IsXor(x: word)
    ensures BigSigma1(x) == Xor3(RotateRight(x, 6), RotateRight(x, 11), RotateRight(x, 25))
  {
    hide RotateRight;
  }

  lemma SmallSigma0IsXor(x: word)
    ensures SmallSigma0(x) == Xor3(RotateRight(x, 7), RotateRight(x, 18), x >> 3)
  {
    hide RotateRight;
  }

  lemma SmallSigma1IsXor(x: word)
    ensures SmallSigma1(x) == Xor3(RotateRight(x, 17), RotateRight(x, 19), x >> 10)
  {
    hide RotateRight;
  }

  /** `n` rounds, with round constants from `k0` on and schedule words from `v0` on. */
  function Run(n: nat,
               a: word, b: word, c: word, d: word, e: word, f: word, g: word, h: word,
               k0: word, k1: word, k2: word, k3: word, k4: word, k5: word, k6: word, k7: word,
               v0: word, v1: word, v2: word, v3: word, v4: word, v5: word, v6: word, v7: word,
               w0: word, w1: word, w2: word, w3: word, w4: word, w5: word, w6: word, w7: word): Snapshot
    decreases n
  {
    if n == 0 then
      Snapshot(Regs(a, b, c, d, e, f, g, h), Regs(v0, v1, v2, v3, v4, v5, v6, v7), Regs(w0, w1, w2, w3, w4, w5, w6, w7))
    else
      var t1 := h + (e.RotateRight(6) ^ e.RotateRight(11) ^ e.RotateRight(25)) + ((e & f) ^ (!e & g)) + k0 + v0;
      var t2 := (a.RotateRight(2) ^ a.RotateRight(13) ^ a.RotateRight(22)) + ((a & b) ^ (a & c) ^ (b & c));
      var w8 := (w6.RotateRight(17) ^ w6.RotateRight(19) ^ (w6 >> 10)) + w1
              + (v1.RotateRight(7) ^ v1.RotateRight(18) ^ (v1 >> 3)) + v0;
      Run(n - 1, t1 + t2, a, b, c, d + t1, e, f, g, k1, k2, k3, k4, k5, k6, k7, k0,
          v1, v2, v3, v4, v5, v6, v7, w0, w1, w2, w3, w4, w5, w6, w7, w8)
  }

  // The three words that a step computes. Each lemma takes one operation out of a native expression.

  function NativeT1(e: word, f: word, g: word, h: word, k: word, v: word): word {
    h + (e.RotateRight(6) ^ e.RotateRight(11) ^ e.RotateRight(25)) + ((e & f) ^ (!e & g)) + k + v
  }

  function NativeT2(a: word, b: word, c: word): word {
    (a.RotateRight(2) ^ a.RotateRight(13) ^ a.RotateRight(22)) + ((a & b) ^ (a & c) ^ (b & c))
  }

  function NativeA(a: word, b: word, c: word, e: word, f: word, g: word, h: word, k: word, v: word): word {
    h + (e.RotateRight(6) ^ e.RotateRight(11) ^ e.RotateRight(25)) + ((e & f) ^ (!e & g)) + k + v
      + ((a.RotateRight(2) ^ a.RotateRight(13) ^ a.RotateRight(22)) + ((a & b) ^ (a & c) ^ (b & c)))
  }

  function NativeE(d: word, e: word, f: word, g: word, h: word, k: word, v: word): word {
    d + (h + (e.RotateRight(6) ^ e.RotateRight(11) ^ e.RotateRight(25)) + ((e & f) ^ (!e & g)) + k + v)
  }

  function NativeW(w6: word, w1: word, v1: word, v0: word): word {
    (w6.RotateRight(17) ^ w6.RotateRight(19) ^ (w6 >> 10)) + w1
      + (v1.RotateRight(7) ^ v1.RotateRight(18) ^ (v1 >> 3)) + v0
  }

  function Native0(x: word): word { x.RotateRight(2) ^ x.RotateRight(13) ^ x.RotateRight(22) }

  function Native1(x: word): word { x.RotateRight(6) ^ x.RotateRight(11) ^ x.RotateRight(25) }

  function Native2(x: word): word { x.RotateRight(7) ^ x.RotateRight(18) ^ (x >> 3) }

  function Native3(x: word): word { x.RotateRight(17) ^ x.RotateRight(19) ^ (x >> 10) }

  lemma NativeSigmas(x: word)
    ensures Native0(x) == Xor3(x.RotateRight(2), x.RotateRight(13), x.RotateRight(22))
    ensures Native1(x) == Xor3(x.RotateRight(6), x.RotateRight(11), x.RotateRight(25))
    ensures Native2(x) == Xor3(x.RotateRight(7), x.RotateRight(18), x >> 3)
    ensures Native3(x) == Xor3(x.RotateRight(17), x.RotateRight(19), x >> 10)
  {
  }

  lemma SigmasAreNative(x: word)
    ensures BigSigma0(x) == Native0(x) && BigSigma1(x) == Native1(x)
    ensures SmallSigma0(x) == Native2(x) && SmallSigma1(x) == Native3(x)
  {
    hide RotateRight, Xor3, BigSigma0, BigSigma1, SmallSigma0, SmallSigma1, Native0, Native1, Native2, Native3;
    BigSigma0IsXor(x);
    BigSigma1IsXor(x);
    SmallSigma0IsXor(x);
    SmallSigma1IsXor(x);
    RotateRightIsCircular(x);
    NativeSigmas(x);
  }

  lemma T1Sum(e: word, f: word, g: word, h: word, k: word, v: word)
    ensures NativeT1(e, f, g, h, k, v)
         == Sum5(h, e.RotateRight(6) ^ e.RotateRight(11) ^ e.RotateRight(25), (e & f) ^ (!e & g), k, v)
  {
  }

  lemma T2Sum(a: word, b: word, c: word)
    ensures NativeT2(a, b, c)
         == Plus(a.RotateRight(2) ^ a.RotateRight(13) ^ a.RotateRight(22), (a & b) ^ (a & c) ^ (b & c))
  {
  }

  lemma T1Is(e: word, f: word, g: word, h: word, k: word, v: word)
    ensures NativeT1(e, f, g, h, k, v) == Sum5(h, Native1(e), Ch(e, f, g), k, v)
  {
    hide NativeT1, Sum5;
    T1Sum(e, f, g, h, k, v);
  }

  lemma T2Is(a: word, b: word, c: word)
    ensures NativeT2(a, b, c) == Plus(Native0(a), Maj(a, b, c))
  {
    hide NativeT2, Plus;
    T2Sum(a, b, c);
  }

  lemma ASum(a: word, b: word, c: word, e: word, f: word, g: word, h: word, k: word, v: word)
    ensures NativeA(a, b, c, e, f, g, h, k, v)
         == Plus(h + (e.RotateRight(6) ^ e.RotateRight(11) ^ e.RotateRight(25)) + ((e & f) ^ (!e & g)) + k + v,
                 (a.RotateRight(2) ^ a.RotateRight(13) ^ a.RotateRight(22)) + ((a & b) ^ (a & c) ^ (b & c)))
  {
  }

  lemma ESum(d: word, e: word, f: word, g: word, h: word, k: word, v: word)
    ensures NativeE(d, e, f, g, h, k, v)
         == Plus(d, h + (e.RotateRight(6) ^ e.RotateRight(11) ^ e.RotateRight(25)) + ((e & f) ^ (!e & g)) + k + v)
  {
  }

  lemma AIs(a: word, b: word, c: word, e: word, f: word, g: word, h: word, k: word, v: word)
    ensures NativeA(a, b, c, e, f, g, h, k, v) == Plus(NativeT1(e, f, g, h, k, v), NativeT2(a, b, c))
  {
    hide NativeA, Plus;
    ASum(a, b, c, e, f, g, h, k, v);
  }

  lemma EIs(d: word, e: word, f: word, g: word, h: word, k: word, v: word)
    ensures NativeE(d, e, f, g, h, k, v) == Plus(d, NativeT1(e, f, g, h, k, v))
  {
    hide NativeE, Plus;
    ESum(d, e, f, g, h, k, v);
  }

  lemma WSum(w6: word, w1: word, v1: word, v0: word)
    ensures NativeW(w6, w1, v1, v0)
         == Sum4(w6.RotateRight(17) ^ w6.RotateRight(19) ^ (w6 >> 10), w1,
                 v1.RotateRight(7) ^ v1.RotateRight(18) ^ (v1 >> 3), v0)
  {
  }

  lemma WIs(w6: word, w1: word, v1: word, v0: word)
    ensures NativeW(w6, w1, v1, v0) == Sum4(Native3(w6), w1, Native2(v1), v0)
  {
    hide NativeW, Sum4;
    WSum(w6, w1, v1, v0);
  }

  // ---------------------------------------------------------------- they are the standard's

  function RunOn(n: nat, r: Regs, k: Regs, v: Regs, w: Regs): Snapshot {
    Run(n, r.a, r.b, r.c, r.d, r.e, r.f, r.g, r.h, k.a, k.b, k.c, k.d, k.e, k.f, k.g, k.h,
        v.a, v.b, v.c, v.d, v.e, v.f, v.g, v.h, w.a, w.b, w.c, w.d, w.e, w.f, w.g, w.h)
  }

  /** The words after the first, with one more. */
  function Shift(r: Regs, x: word): Regs {
    Regs(r.b, r.c, r.d, r.e, r.f, r.g, r.h, x)
  }

  lemma NoRun(r: Regs, k: Regs, v: Regs, w: Regs)
    ensures RunOn(0, r, k, v, w) == Snapshot(r, v, w)
  {
  }

  lemma RunUnfolds(n: nat, r: Regs, k: Regs, v: Regs, w: Regs)
    requires n > 0
    ensures
      RunOn(n, r, k, v, w)
        == RunOn(n - 1,
                 Regs(NativeA(r.a, r.b, r.c, r.e, r.f, r.g, r.h, k.a, v.a), r.a, r.b, r.c,
                      NativeE(r.d, r.e, r.f, r.g, r.h, k.a, v.a), r.e, r.f, r.g),
                 Shift(k, k.a), Shift(v, w.a), Shift(w, NativeW(w.g, w.b, v.b, v.a)))
  {
  }

  lemma RoundIsNative(r: Regs, k: word, w: word)
    ensures Round(r, k, w)
         == Regs(NativeA(r.a, r.b, r.c, r.e, r.f, r.g, r.h, k, w), r.a, r.b, r.c,
                 NativeE(r.d, r.e, r.f, r.g, r.h, k, w), r.e, r.f, r.g)
  {
    hide Plus, Sum5, Ch, Maj, BigSigma0, BigSigma1, Native0, Native1;
    hide NativeA, NativeE, NativeT1, NativeT2;
    AIs(r.a, r.b, r.c, r.e, r.f, r.g, r.h, k, w);
    EIs(r.d, r.e, r.f, r.g, r.h, k, w);
    T1Is(r.e, r.f, r.g, r.h, k, w);
    T2Is(r.a, r.b, r.c);
    SigmasAreNative(r.a);
    SigmasAreNative(r.e);
  }

  /** The words of `v` and `w` are the schedule words from `t` on. */
  predicate Scheduled(m: seq<word>, t: nat, v: Regs, w: Regs)
    requires |m| == 16
  {
    && W(m, t) == v.a && W(m, t + 1) == v.b && W(m, t + 2) == v.c && W(m, t + 3) == v.d
    && W(m, t + 4) == v.e && W(m, t + 5) == v.f && W(m, t + 6) == v.g && W(m, t + 7) == v.h
    && W(m, t + 8) == w.a && W(m, t + 9) == w.b && W(m, t + 10) == w.c && W(m, t + 11) == w.d
    && W(m, t + 12) == w.e && W(m, t + 13) == w.f && W(m, t + 14) == w.g && W(m, t + 15) == w.h
  }

  /** The first `n` words of `k` are the round constants from `t` on. */
  predicate Constants(t: nat, n: nat, k: Regs)
    requires n <= 8 && t + n <= |K|
  {
    && (n > 0 ==> K[t] == k.a) && (n > 1 ==> K[t + 1] == k.b) && (n > 2 ==> K[t + 2] == k.c)
    && (n > 3 ==> K[t + 3] == k.d) && (n > 4 ==> K[t + 4] == k.e) && (n > 5 ==> K[t + 5] == k.f)
    && (n > 6 ==> K[t + 6] == k.g) && (n > 7 ==> K[t + 7] == k.h)
  }

  lemma ScheduleIsNative(m: seq<word>, t: nat)
    requires |m| == 16
    ensures W(m, t + 16) == NativeW(W(m, t + 14), W(m, t + 9), W(m, t + 1), W(m, t))
  {
    hide Sum4, SmallSigma0, SmallSigma1, Native2, Native3, NativeW;
    SigmasAreNative(W(m, t + 14));
    SigmasAreNative(W(m, t + 1));
    WIs(W(m, t + 14), W(m, t + 9), W(m, t + 1), W(m, t));
  }

  lemma ScheduledNext(m: seq<word>, t: nat, v: Regs, w: Regs)
    requires |m| == 16 && Scheduled(m, t, v, w)
    ensures W(m, t) == v.a && Scheduled(m, t + 1, Shift(v, w.a), Shift(w, NativeW(w.g, w.b, v.b, v.a)))
  {
    hide W, NativeW;
    ScheduleIsNative(m, t);
  }

  lemma ConstantsNext(t: nat, n: nat, k: Regs)
    requires 0 < n <= 8 && t + n <= |K| && Constants(t, n, k)
    ensures K[t] == k.a && Constants(t + 1, n - 1, Shift(k, k.a))
  {
    hide K;
  }

  lemma RunStep(m: seq<word>, start: Regs, t: nat, n: nat, k: Regs, v: Regs, w: Regs)
    requires |m| == 16 && 0 < n <= 8 && t + n <= |K| && K[t] == k.a && W(m, t) == v.a
    ensures RunOn(n, Rounds(start, m, t), k, v, w)
         == RunOn(n - 1, Rounds(start, m, t + 1), Shift(k, k.a), Shift(v, w.a), Shift(w, NativeW(w.g, w.b, v.b, v.a)))
  {
    hide RunOn, Round, W, K, NativeA, NativeE, NativeW;
    RunUnfolds(n, Rounds(start, m, t), k, v, w);
    RoundIsNative(Rounds(start, m, t), k.a, v.a);
  }

  lemma {:induction false} RunIsRounds(m: seq<word>, start: Regs, t: nat, n: nat, k: Regs, v: Regs, w: Regs)
    requires |m| == 16 && n <= 8 && t + n <= |K| && Constants(t, n, k) && Scheduled(m, t, v, w)
    ensures
      var s := RunOn(n, Rounds(start, m, t), k, v, w);
      s.r == Rounds(start, m, t + n) && Scheduled(m, t + n, s.v, s.w)
    decreases n
  {
    hide RunOn, Rounds, Scheduled, Constants, W, K, NativeW;
    if n == 0 {
      NoRun(Rounds(start, m, t), k, v, w);
    } else {
      ConstantsNext(t, n, k);
      ScheduledNext(m, t, v, w);
      RunStep(m, start, t, n, k, v, w);
      RunIsRounds(m, start, t + 1, n - 1, Shift(k, k.a), Shift(v, w.a), Shift(w, NativeW(w.g, w.b, v.b, v.a)));
    }
  }
}
