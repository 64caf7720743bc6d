/** The round function and the message schedule lose no information: each has an explicit inverse. */
module Compression {
  import opened Words
  import opened Fips180

  function Minus(x: word, y: word): word { x - y }

  function Minus3(x: word, a: word, b: word, c: word): word { x - a - b - c }

  function Minus4(x: word, a: word, b: word, c: word, d: word): word { x - a - b - c - d }

  // Subtracting what a sum added gives the sum's remaining term, and adding it back the sum.

  lemma PlusMinusNative(x: word, y: word)
    ensures Minus(x + y, y) == x && Plus(x - y, y) == x
  {
  }

  lemma Sum4Native(a: word, b: word, c: word, x: word)
    ensures Minus3(a + b + c + x, a, b, c) == x && Sum4(a, b, c, x - a - b - c) == x
  {
  }

  lemma Sum5Native(x: word, a: word, b: word, c: word, d: word)
    ensures Minus4(x + a + b + c + d, a, b, c, d) == x && Sum5(x - a - b - c - d, a, b, c, d) == x
  {
  }

  lemma PlusThenMinus(x: word, y: word)
    ensures Minus(Plus(x, y), y) == x
  {
    hide Minus;
    PlusMinusNative(x, y);
  }

  lemma MinusThenPlus(x: word, y: word)
    ensures Plus(Minus(x, y), y) == x
  {
    hide Plus;
    PlusMinusNative(x, y);
  }

  lemma Sum4ThenMinus(a: word, b: word, c: word, x: word)
    ensures Minus3(Sum4(a, b, c, x), a, b, c) == x
  {
    hide Minus3;
    Sum4Native(a, b, c, x);
  }

  lemma MinusThenSum4(a: word, b: word, c: word, x: word)
    ensures Sum4(a, b, c, Minus3(x, a, b, c)) == x
  {
    hide Sum4;
    Sum4Native(a, b, c, x);
  }

  lemma Sum5ThenMinus(x: word, a: word, b: word, c: word, d: word)
    ensures Minus4(Sum5(x, a, b, c, d), a, b, c, d) == x
  {
    hide Minus4;
    Sum5Native(x, a, b, c, d);
  }

  lemma MinusThenSum5(x: word, a: word, b: word, c: word, d: word)
    ensures Sum5(Minus4(x, a, b, c, d), a, b, c, d) == x
  {
    hide Sum5;
    Sum5Native(x, a, b, c, d);
  }

  lemma CancelLeft(x: word, y: word, z: word)
    ensures Plus(x, y) == Plus(x, z) ==> y == z
  {
    hide Plus, Minus;
    PlusCommutes(x, y);
    PlusCommutes(x, z);
    PlusThenMinus(y, x);
    PlusThenMinus(z, x);
  }

  // ---------------------------------------------------------------- rounds

  /** The working variables before a round, from those after it. */
  function InverseRound(r: Regs, k: word, w: word): Regs {
    var t1 := Minus(r.a, Plus(BigSigma0(r.b), Maj(r.b, r.c, r.d)));
    Regs(r.b, r.c, r.d, Minus(r.e, t1), r.f, r.g, r.h,
         Minus4(t1, BigSigma1(r.f), Ch(r.f, r.g, r.h), k, w))
  }

  function InverseRounds(r: Regs, m: seq<word>, n: nat): Regs
    requires |m| == 16 && n <= |K|
    decreases n
  {
    if n == 0 then r else InverseRounds(InverseRound(r, K[n - 1], W(m, n - 1)), m, n - 1)
  }

  lemma RoundThenInverse(r: Regs, k: word, w: word)
    ensures InverseRound(Round(r, k, w), k, w) == r
  {
    hide Plus, Minus, Sum5, Minus4, BigSigma0, BigSigma1, Ch, Maj;
    var s1, ch := BigSigma1(r.e), Ch(r.e, r.f, r.g);
    var t1 := Sum5(r.h, s1, ch, k, w);
    PlusThenMinus(t1, Plus(BigSigma0(r.a), Maj(r.a, r.b, r.c)));
    PlusThenMinus(r.d, t1);
    Sum5ThenMinus(r.h, s1, ch, k, w);
  }

  lemma InverseThenRound(r: Regs, k: word, w: word)
    ensures Round(InverseRound(r, k, w), k, w) == r
  {
    hide Plus, Minus, Sum5, Minus4, BigSigma0, BigSigma1, Ch, Maj;
    var t2 := Plus(BigSigma0(r.b), Maj(r.b, r.c, r.d));
    var t1 := Minus(r.a, t2);
    MinusThenPlus(r.a, t2);
    MinusThenPlus(r.e, t1);
    MinusThenSum5(t1, BigSigma1(r.f), Ch(r.f, r.g, r.h), k, w);
  }

  /** For every block, the rounds are a bijection on the working variables: left inverse ... */
  lemma {:induction false} RoundsThenInverse(r: Regs, m: seq<word>, n: nat)
    requires |m| == 16 && n <= |K|
    ensures InverseRounds(Rounds(r, m, n), m, n) == r
  {
    hide Round, InverseRound;
    if n == 0 {
      assert Rounds(r, m, 0) == r == InverseRounds(r, m, 0);
    } else {
      RoundThenInverse(Rounds(r, m, n - 1), K[n - 1], W(m, n - 1));
      RoundsThenInverse(r, m, n - 1);
    }
  }

  /** ... and right inverse. */
  lemma {:induction false} InverseThenRounds(r: Regs, m: seq<word>, n: nat)
    requires |m| == 16 && n <= |K|
    ensures Rounds(InverseRounds(r, m, n), m, n) == r
    decreases n
  {
    hide Round, InverseRound;
    if n == 0 {
      assert InverseRounds(r, m, 0) == r == Rounds(r, m, 0);
    } else {
      InverseThenRounds(InverseRound(r, K[n - 1], W(m, n - 1)), m, n - 1);
      InverseThenRound(r, K[n - 1], W(m, n - 1));
    }
  }

  lemma FeedForwardInjective(h: Chain, q: Regs, r: Regs)
    requires FeedForward(h, q) == FeedForward(h, r)
    ensures q == r
  {
    var u, v := FeedForward(h, q), FeedForward(h, r);
    assert u[0] == v[0] && u[1] == v[1] && u[2] == v[2] && u[3] == v[3];
    assert u[4] == v[4] && u[5] == v[5] && u[6] == v[6] && u[7] == v[7];
    hide *;
    CancelLeft(h[0], q.a, r.a);
    CancelLeft(h[1], q.b, r.b);
    CancelLeft(h[2], q.c, r.c);
    CancelLeft(h[3], q.d, r.d);
    CancelLeft(h[4], q.e, r.e);
    CancelLeft(h[5], q.f, r.f);
    CancelLeft(h[6], q.g, r.g);
    CancelLeft(h[7], q.h, r.h);
  }

  /**
   So only the feed-forward loses information: from the working variables that it adds, the block
   gives back the chaining value that went in.
   */
  lemma FeedForwardAloneLosesInformation(h: Chain, block: seq<byte>, r: Regs)
    requires |block| == 64
    requires Compress(h, block) == FeedForward(h, r)
    ensures InverseRounds(r, LoadWords(block), |K|) == Load(h)
  {
    FeedForwardInjective(h, Rounds(Load(h), LoadWords(block), |K|), r);
    RoundsThenInverse(Load(h), LoadWords(block), |K|);
  }

  /** The difference of two hash values, word by word. */
  function Difference(c: Chain, h: Chain): Chain {
    [Minus(c[0], h[0]), Minus(c[1], h[1]), Minus(c[2], h[2]), Minus(c[3], h[3]),
     Minus(c[4], h[4]), Minus(c[5], h[5]), Minus(c[6], h[6]), Minus(c[7], h[7])]
  }

  lemma FeedForwardWords(h: Chain, g: Chain)
    ensures
      var c := FeedForward(h, Load(g));
      && c[0] == Plus(h[0], g[0]) && c[1] == Plus(h[1], g[1]) && c[2] == Plus(h[2], g[2]) && c[3] == Plus(h[3], g[3])
      && c[4] == Plus(h[4], g[4]) && c[5] == Plus(h[5], g[5]) && c[6] == Plus(h[6], g[6]) && c[7] == Plus(h[7], g[7])
  {
    hide Plus, IV, K;
  }

  lemma AddThenSubtract(x: word, y: word)
    ensures Minus(Plus(x, y), x) == y && Minus(Plus(x, y), y) == x
  {
    hide Plus, Minus;
    PlusThenMinus(x, y);
    PlusThenMinus(y, x);
    PlusCommutes(x, y);
  }

  lemma ItsWords(h: Chain)
    ensures h == [h[0], h[1], h[2], h[3], h[4], h[5], h[6], h[7]]
  {
  }

  /** The feed-forward adds to each register, in order, the word of the chaining value at its place. */
  lemma FeedForwardAdds(h: Chain, g: Chain)
    ensures Difference(FeedForward(h, Load(g)), h) == g
    ensures Difference(FeedForward(h, Load(g)), g) == h
  {
    hide Plus, Minus, FeedForward, Load, IV, K;
    FeedForwardWords(h, g);
    AddThenSubtract(h[0], g[0]);
    AddThenSubtract(h[1], g[1]);
    AddThenSubtract(h[2], g[2]);
    AddThenSubtract(h[3], g[3]);
    AddThenSubtract(h[4], g[4]);
    AddThenSubtract(h[5], g[5]);
    AddThenSubtract(h[6], g[6]);
    AddThenSubtract(h[7], g[7]);
    ItsWords(g);
    ItsWords(h);
  }

  /**
   The compression function adds the chaining value that went in: taking it off what comes out, and
   running the rounds back over the block, gives that chaining value.
   */
  lemma CompressAddsChain(h: Chain, block: seq<byte>)
    requires |block| == 64
    ensures InverseRounds(Load(Difference(Compress(h, block), h)), LoadWords(block), |K|) == Load(h)
  {
    hide Rounds, InverseRounds, FeedForward, Difference, LoadWords, K;
    var m := LoadWords(block);
    var r := Rounds(Load(h), m, |K|);
    var g: Chain := [r.a, r.b, r.c, r.d, r.e, r.f, r.g, r.h];
    assert Load(g) == r;
    FeedForwardAdds(h, g);
    RoundsThenInverse(Load(h), m, |K|);
  }

  // ---------------------------------------------------------------- message schedule

  /** Sixteen consecutive schedule words, from word `p` on. */
  function Window(m: seq<word>, p: nat): (ws: seq<word>)
    requires |m| == 16
    ensures |ws| == 16
  {
    seq(16, j requires 0 <= j < 16 => W(m, p + j))
  }

  /** The schedule word after the words `ws`. */
  function After(ws: seq<word>): word
    requires |ws| == 16
  {
    Sum4(SmallSigma1(ws[14]), ws[9], SmallSigma0(ws[1]), ws[0])
  }

  /** The schedule word before the words `ws`, from the recurrence for the last of them. */
  function Before(ws: seq<word>): word
    requires |ws| == 16
  {
    Minus3(ws[15], SmallSigma1(ws[13]), ws[8], SmallSigma0(ws[0]))
  }

  /** Sliding one word forward undoes sliding one word back, and the other way around. */
  lemma AfterBefore(ws: seq<word>)
    requires |ws| == 16
    ensures After([Before(ws)] + ws[..15]) == ws[15]
    ensures Before(ws[1..] + [After(ws)]) == ws[0]
  {
    hide Sum4, Minus3, SmallSigma0, SmallSigma1;
    MinusThenSum4(SmallSigma1(ws[13]), ws[8], SmallSigma0(ws[0]), ws[15]);
    Sum4ThenMinus(SmallSigma1(ws[14]), ws[9], SmallSigma0(ws[1]), ws[0]);
  }

  /** The block whose schedule has `ws` as its words from `p` on. */
  function Unschedule(ws: seq<word>, p: nat): (m: seq<word>)
    requires |ws| == 16
    ensures |m| == 16
    decreases p
  {
    if p == 0 then ws else Unschedule([Before(ws)] + ws[..15], p - 1)
  }

  lemma WindowZero(m: seq<word>)
    requires |m| == 16
    ensures Window(m, 0) == m
  {
    assert forall j :: 0 <= j < 16 ==> W(m, j) == m[j];
  }

  lemma SlideForward(m: seq<word>, p: nat)
    requires |m| == 16
    ensures Window(m, p + 1) == Window(m, p)[1..] + [After(Window(m, p))]
  {
    hide Sum4, SmallSigma0, SmallSigma1;
    assert W(m, p + 16) == After(Window(m, p));
  }

  /** Any sixteen consecutive schedule words determine the block ... */
  lemma {:induction false} WindowThenUnschedule(m: seq<word>, p: nat)
    requires |m| == 16
    ensures Unschedule(Window(m, p), p) == m
  {
    hide Before, After, Window;
    if p == 0 {
      WindowZero(m);
    } else {
      var ws := Window(m, p - 1);
      SlideForward(m, p - 1);
      AfterBefore(ws);
      assert [Before(Window(m, p))] + Window(m, p)[..15] == ws;
      WindowThenUnschedule(m, p - 1);
    }
  }

  /** ... and any sixteen words occur at any place of some block's schedule. */
  lemma {:induction false} UnscheduleThenWindow(ws: seq<word>, p: nat)
    requires |ws| == 16
    ensures Window(Unschedule(ws, p), p) == ws
    decreases p
  {
    hide Before, After, Window;
    if p == 0 {
      WindowZero(ws);
    } else {
      UnscheduleThenWindow([Before(ws)] + ws[..15], p - 1);
      SlideForward(Unschedule(ws, p), p - 1);
      AfterBefore(ws);
    }
  }

  /** Two blocks of bytes whose schedules agree on sixteen consecutive words are the same block. */
  lemma WindowDeterminesBlock(b: seq<byte>, c: seq<byte>, p: nat)
    requires |b| == 64 && |c| == 64
    requires Window(LoadWords(b), p) == Window(LoadWords(c), p)
    ensures b == c
  {
    WindowThenUnschedule(LoadWords(b), p);
    WindowThenUnschedule(LoadWords(c), p);
    LoadThenStoreWords(b);
    LoadThenStoreWords(c);
  }
}
