/** The checksum recurrence over the field BIP-173 computes in: GF(32), symbols as polynomials in a
root `alpha` of x^5 + x^3 + 1. The source only writes down five 30-bit words; that they are the
successive alpha multiples of one word is what makes the code linear over the field. */
module Field32 {
  import opened Polymod

  /** Multiplies the six symbols packed into a 30-bit word by alpha. */
  function Alpha(c: bv32): bv32 {
    Xor(Xor(Doubled(c), Carry(c)), CarryThree(c))
  }

  function Doubled(c: bv32): bv32 { (c & 0x1ef7_bdef) << 1 }

  /** The bit shifted out of each symbol comes back at positions 0 and 3: alpha^5 = alpha^3 + 1. */
  function Carry(c: bv32): bv32 { (c >> 4) & 0x0210_8421 }

  function CarryThree(c: bv32): bv32 { (c >> 1) & 0x1084_2108 }

  lemma DoubledXor(a: bv32, b: bv32)
    ensures Doubled(Xor(a, b)) == Xor(Doubled(a), Doubled(b))
  {}

  lemma CarryXor(a: bv32, b: bv32)
    ensures Carry(Xor(a, b)) == Xor(Carry(a), Carry(b))
  {}

  lemma CarryThreeXor(a: bv32, b: bv32)
    ensures CarryThree(Xor(a, b)) == Xor(CarryThree(a), CarryThree(b))
  {}

  lemma AlphaXor(a: bv32, b: bv32)
    ensures Alpha(Xor(a, b)) == Xor(Alpha(a), Alpha(b))
  {
    hide Xor, Doubled, Carry, CarryThree;
    DoubledXor(a, b);
    CarryXor(a, b);
    CarryThreeXor(a, b);
    XorSwap(Doubled(a), Doubled(b), Carry(a), Carry(b));
    XorSwap(Xor(Doubled(a), Carry(a)), Xor(Doubled(b), Carry(b)), CarryThree(a), CarryThree(b));
  }

  lemma AlphaBound(c: bv32)
    requires c < STATE_LIMIT
    ensures Alpha(c) < STATE_LIMIT
    ensures c < 32 ==> Alpha(c) < 32
    ensures Alpha(c) == 0 <==> c == 0
  {}

  lemma AlphaShift(c: bv32)
    requires c < STATE_LIMIT
    ensures Shifted(Alpha(c)) == Alpha(Shifted(c))
    ensures Alpha(c) >> 25 == Alpha(c >> 25)
    ensures c >> 25 < 32
  {}

  /** The five generator words are one word times 1, alpha, ..., alpha^4. */
  lemma AlphaFeedback(top: bv32)
    requires top < 32
    ensures Feedback(Alpha(top), 5) == Alpha(Feedback(top, 5))
  {
    hide Feedback;
    FeedbackUnrolled(top);
    FeedbackUnrolled(Alpha(top));
  }

  lemma StepAlpha(c: bv32, v: bv32)
    requires c < STATE_LIMIT
    ensures Step(Alpha(c), Alpha(v)) == Alpha(Step(c, v))
  {
    hide Xor, Alpha, Feedback, Shifted;
    AlphaShift(c);
    AlphaFeedback(c >> 25);
    AlphaXor(Shifted(c), v);
    AlphaXor(Xor(Shifted(c), v), Feedback(c >> 25, 5));
  }

  /** alpha^n times a word. */
  function Times(n: nat, c: bv32): bv32 {
    if n == 0 then c else Alpha(Times(n - 1, c))
  }

  function TimesAll(n: nat, ws: seq<bv32>): (vs: seq<bv32>)
    ensures |vs| == |ws|
  {
    seq(|ws|, i requires 0 <= i < |ws| => Times(n, ws[i]))
  }

  lemma {:induction false} TimesBound(n: nat, c: bv32)
    requires c < STATE_LIMIT
    ensures Times(n, c) < STATE_LIMIT
    ensures c < 32 ==> Times(n, c) < 32
    ensures Times(n, c) == 0 <==> c == 0
  {
    hide Alpha;
    if n > 0 {
      TimesBound(n - 1, c);
      AlphaBound(Times(n - 1, c));
    }
  }

  lemma {:induction false} StepTimes(n: nat, c: bv32, v: bv32)
    requires c < STATE_LIMIT && v < 32
    ensures Step(Times(n, c), Times(n, v)) == Times(n, Step(c, v))
  {
    hide Alpha, Step;
    if n > 0 {
      StepTimes(n - 1, c, v);
      TimesBound(n - 1, c);
      StepAlpha(Times(n - 1, c), Times(n - 1, v));
    }
  }

  /** Linearity over the field: scaling the state and every symbol scales the outcome. */
  lemma {:induction false} RunTimes(n: nat, c: bv32, ws: seq<bv32>)
    requires c < STATE_LIMIT && Symbols(ws)
    ensures Run(Times(n, c), TimesAll(n, ws)) == Times(n, Run(c, ws))
    decreases |ws|
  {
    hide Step, Times;
    if ws != [] {
      StepTimes(n, c, ws[0]);
      StepBound(c, ws[0]);
      assert TimesAll(n, ws)[1..] == TimesAll(n, ws[1..]);
      RunTimes(n, Step(c, ws[0]), ws[1..]);
    }
  }

  /** So whether a difference of symbols goes unseen is the same for all its multiples by a power
      of alpha. */
  lemma ScaledDifference(n: nat, ws: seq<bv32>)
    requires Symbols(ws)
    ensures Run(0, TimesAll(n, ws)) == 0 <==> Run(0, ws) == 0
  {
    hide Run, Times;
    TimesBound(n, 0);
    RunTimes(n, 0, ws);
    RunBound(0, ws);
    TimesBound(n, Run(0, ws));
  }
}
