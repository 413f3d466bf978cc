/** The Bech32 checksum recurrence (pkg/gpub/gpub.go, `polymod`) as a linear map over GF(2).

The state is the source's uint32 (`bv32`); the values it is fed are bytes. Exclusive-or is wrapped
in the function `Xor` so that proofs which only need its algebra can hide its bits. */
module Polymod {

  import opened Bits

  const GENERATOR: seq<bv32> := [0x3b6a57b2, 0x26508e6d, 0x1ea119fa, 0x3d4233dd, 0x2a1462b3]

  /** States reached after at least one step fit in 30 bits. */
  const STATE_LIMIT: bv32 := 0x4000_0000

  function Xor(a: bv32, b: bv32): bv32 { a ^ b }

  // ---- one step ----

  predicate BitSet(top: bv32, i: nat)
    requires i < 5
  {
    if i == 0 then top & 1 == 1
    else if i == 1 then (top >> 1) & 1 == 1
    else if i == 2 then (top >> 2) & 1 == 1
    else if i == 3 then (top >> 3) & 1 == 1
    else (top >> 4) & 1 == 1
  }

  function Tap(top: bv32, i: nat): bv32
    requires i < 5
  {
    if BitSet(top, i) then GENERATOR[i] else 0
  }

  /** The sum of the generators selected by the `n` low bits of `top`. */
  function Feedback(top: bv32, n: nat): bv32
    requires n <= 5
  {
    if n == 0 then 0 else Xor(Feedback(top, n - 1), Tap(top, n - 1))
  }

  function Shifted(chk: bv32): bv32 { (chk & 0x1ffffff) << 5 }

  function Step(chk: bv32, v: bv32): bv32 {
    Xor(Xor(Shifted(chk), v), Feedback(chk >> 25, 5))
  }

  // ---- a whole run ----

  function Words(values: seq<byte>): (ws: seq<bv32>)
    ensures |ws| == |values|
  {
    seq(|values|, i requires 0 <= i < |values| => values[i] as bv32)
  }

  function Run(chk: bv32, ws: seq<bv32>): bv32
    decreases |ws|
  {
    if ws == [] then chk else Run(Step(chk, ws[0]), ws[1..])
  }

  method Polymod(values: seq<byte>) returns (chk: bv32)
    ensures chk == Run(1, Words(values))
  {
    hide Xor, Feedback;
    chk := 1;
    for k := 0 to |values|
      invariant Run(1, Words(values)) == Run(chk, Words(values)[k..])
    {
      var top := chk >> 25;
      chk := Xor((chk & 0x1ffffff) << 5, values[k] as bv32);
      ghost var shifted := chk;
      FeedbackNone(shifted, top);
      for i := 0 to 5
        invariant chk == Xor(shifted, Feedback(top, i))
      {
        FeedbackNext(shifted, top, i);
        if (top >> i) & 1 == 1 {
          chk := Xor(chk, GENERATOR[i]);
        }
      }
    }
  }

  // ---- algebra of Xor ----

  lemma XorUnit(g: bv32)
    ensures Xor(g, g) == 0 && Xor(g, 0) == g && Xor(0, g) == g
  {}

  lemma XorComm(a: bv32, b: bv32)
    ensures Xor(a, b) == Xor(b, a)
  {}

  lemma XorAssoc(a: bv32, b: bv32, c: bv32)
    ensures Xor(Xor(a, b), c) == Xor(a, Xor(b, c))
  {}

  lemma XorSwap(a: bv32, b: bv32, c: bv32, d: bv32)
    ensures Xor(Xor(a, b), Xor(c, d)) == Xor(Xor(a, c), Xor(b, d))
  {
    hide Xor;
    XorAssoc(a, b, Xor(c, d));
    XorAssoc(b, c, d);
    XorComm(b, c);
    XorAssoc(c, b, d);
    XorAssoc(a, c, Xor(b, d));
  }

  lemma XorCancel(a: bv32, b: bv32)
    ensures Xor(a, Xor(a, b)) == b
    ensures Xor(a, b) == 0 ==> a == b
  {
    hide Xor;
    XorAssoc(a, a, b);
    XorAssoc(a, b, b);
    XorUnit(a);
    XorUnit(b);
  }

  lemma XorBound(x: bv32, y: bv32)
    requires x < STATE_LIMIT && y < STATE_LIMIT
    ensures Xor(x, y) < STATE_LIMIT
  {}

  // ---- the loop over the five generators ----

  lemma BitTest(top: bv32, i: nat)
    requires i < 5
    ensures BitSet(top, i) == ((top >> i) & 1 == 1)
  {
    if i == 0 {
      assert top >> 0 == top;
    } else if i == 1 {
    } else if i == 2 {
    } else if i == 3 {
    } else {
    }
  }

  lemma FeedbackNone(x: bv32, top: bv32)
    ensures Xor(x, Feedback(top, 0)) == x
  {}

  lemma FeedbackNext(x: bv32, top: bv32, i: nat)
    requires i < 5
    ensures Xor(x, Feedback(top, i + 1))
         == var sum := Xor(x, Feedback(top, i)); if (top >> i) & 1 == 1 then Xor(sum, GENERATOR[i]) else sum
  {
    hide Xor, BitSet;
    BitTest(top, i);
    XorUnit(Feedback(top, i));
    XorAssoc(x, Feedback(top, i), GENERATOR[i]);
  }

  lemma FeedbackUnrolled(top: bv32)
    ensures Feedback(top, 5) ==
            (if top & 1 == 1 then 0x3b6a57b2 else 0) ^
            (if (top >> 1) & 1 == 1 then 0x26508e6d else 0) ^
            (if (top >> 2) & 1 == 1 then 0x1ea119fa else 0) ^
            (if (top >> 3) & 1 == 1 then 0x3d4233dd else 0) ^
            (if (top >> 4) & 1 == 1 then 0x2a1462b3 else 0)
  {
    assert Feedback(top, 3) == Xor(Feedback(top, 2), Tap(top, 2));
    assert Feedback(top, 1) == Xor(Feedback(top, 0), Tap(top, 0));
  }

  // ---- linearity ----

  lemma BitSetXor(a: bv32, b: bv32, i: nat)
    requires i < 5
    ensures BitSet(Xor(a, b), i) == (BitSet(a, i) != BitSet(b, i))
  {}

  lemma TapXor(a: bv32, b: bv32, i: nat)
    requires i < 5
    ensures Tap(Xor(a, b), i) == Xor(Tap(a, i), Tap(b, i))
  {
    hide BitSet, Xor;
    BitSetXor(a, b, i);
    XorUnit(GENERATOR[i]);
    XorUnit(0);
  }

  lemma {:induction false} FeedbackXor(a: bv32, b: bv32, n: nat)
    requires n <= 5
    ensures Feedback(Xor(a, b), n) == Xor(Feedback(a, n), Feedback(b, n))
  {
    hide Tap, Xor;
    if n == 0 {
      XorUnit(0);
    } else {
      FeedbackXor(a, b, n - 1);
      TapXor(a, b, n - 1);
      XorSwap(Feedback(a, n - 1), Feedback(b, n - 1), Tap(a, n - 1), Tap(b, n - 1));
    }
  }

  lemma ShiftXor(a: bv32, b: bv32)
    ensures Shifted(Xor(a, b)) == Xor(Shifted(a), Shifted(b))
    ensures Xor(a, b) >> 25 == Xor(a >> 25, b >> 25)
  {}

  lemma StepXor(a: bv32, b: bv32, u: bv32, v: bv32)
    ensures Step(Xor(a, b), Xor(u, v)) == Xor(Step(a, u), Step(b, v))
  {
    hide Shifted, Feedback, Xor;
    ShiftXor(a, b);
    FeedbackXor(a >> 25, b >> 25, 5);
    XorSwap(Shifted(a), Shifted(b), u, v);
    XorSwap(Xor(Shifted(a), u), Xor(Shifted(b), v), Feedback(a >> 25, 5), Feedback(b >> 25, 5));
  }

  function XorAll(us: seq<bv32>, vs: seq<bv32>): (ws: seq<bv32>)
    requires |us| == |vs|
    ensures |ws| == |us|
  {
    seq(|us|, i requires 0 <= i < |us| => Xor(us[i], vs[i]))
  }

  /** Superposition: the run over a difference of inputs is the difference of the runs. */
  lemma {:induction false} RunXor(a: bv32, b: bv32, us: seq<bv32>, vs: seq<bv32>)
    requires |us| == |vs|
    ensures Run(Xor(a, b), XorAll(us, vs)) == Xor(Run(a, us), Run(b, vs))
    decreases |us|
  {
    hide Xor, Step;
    if us != [] {
      StepXor(a, b, us[0], vs[0]);
      assert XorAll(us, vs)[1..] == XorAll(us[1..], vs[1..]);
      RunXor(Step(a, us[0]), Step(b, vs[0]), us[1..], vs[1..]);
    }
  }

  lemma {:induction false} RunConcat(chk: bv32, us: seq<bv32>, vs: seq<bv32>)
    ensures Run(chk, us + vs) == Run(Run(chk, us), vs)
    decreases |us|
  {
    hide Step;
    if us == [] {
      assert us + vs == vs;
    } else {
      assert (us + vs)[1..] == us[1..] + vs;
      RunConcat(Step(chk, us[0]), us[1..], vs);
    }
  }

  // ---- the 30-bit bound ----

  lemma FeedbackBound(top: bv32, n: nat)
    requires n <= 5
    ensures Feedback(top, n) < STATE_LIMIT
  {
    hide BitSet, Xor;
    if n > 0 {
      FeedbackBound(top, n - 1);
      XorBound(Feedback(top, n - 1), Tap(top, n - 1));
    }
  }

  lemma StepBound(chk: bv32, v: bv32)
    requires v < STATE_LIMIT
    ensures Step(chk, v) < STATE_LIMIT
  {
    hide Feedback, Xor;
    FeedbackBound(chk >> 25, 5);
    XorBound(Shifted(chk), v);
    XorBound(Xor(Shifted(chk), v), Feedback(chk >> 25, 5));
  }

  predicate Symbols(ws: seq<bv32>) {
    forall i :: 0 <= i < |ws| ==> ws[i] < 32
  }

  /** However long the input, the state never outgrows 30 bits. */
  lemma {:induction false} RunBound(chk: bv32, ws: seq<bv32>)
    requires chk < STATE_LIMIT && Symbols(ws)
    ensures Run(chk, ws) < STATE_LIMIT
    decreases |ws|
  {
    hide Step;
    if ws != [] {
      StepBound(chk, ws[0]);
      RunBound(Step(chk, ws[0]), ws[1..]);
    }
  }

  // ---- injectivity ----

  function Zeros(n: nat): (ws: seq<bv32>)
    ensures |ws| == n && Symbols(ws)
  {
    seq(n, i => 0)
  }

  lemma ZeroStepInjective(c: bv32)
    requires c < STATE_LIMIT
    requires Step(c, 0) == 0
    ensures c == 0
  {
    hide Feedback;
    FeedbackUnrolled(c >> 25);
  }

  /** Trailing zeros cannot make a nonzero state vanish. */
  lemma {:induction false} ZeroRunInjective(c: bv32, n: nat)
    requires c < STATE_LIMIT
    ensures Run(c, Zeros(n)) == 0 ==> c == 0
    decreases n
  {
    hide Step;
    if n > 0 {
      assert Zeros(n)[1..] == Zeros(n - 1);
      StepBound(c, 0);
      ZeroRunInjective(Step(c, 0), n - 1);
      if Step(c, 0) == 0 {
        ZeroStepInjective(c);
      }
    }
  }

  lemma {:induction false} ZeroRunFromZero(n: nat)
    ensures Run(0, Zeros(n)) == 0
  {
    if n > 0 {
      assert Zeros(n)[1..] == Zeros(n - 1);
      assert Step(0, 0) == 0 by { SmallStep(0, 0); }
      ZeroRunFromZero(n - 1);
    }
  }

  function Appended(c: bv32, v: bv32): bv32 { (c << 5) ^ v }

  /** While the state is below 2^25 no generator is selected: the step only appends a symbol. */
  lemma SmallStep(c: bv32, v: bv32)
    requires c < 0x200_0000
    ensures Step(c, v) == Appended(c, v)
  {
    hide Feedback;
    assert c >> 25 == 0;
    FeedbackUnrolled(c >> 25);
  }

  function Limit(k: nat): bv32 {
    if k == 0 then 1 else if k == 1 then 0x20 else if k == 2 then 0x400 else if k == 3 then 0x8000
    else if k == 4 then 0x10_0000 else if k == 5 then 0x200_0000 else STATE_LIMIT
  }

  predicate AllZero(ws: seq<bv32>) {
    forall i :: 0 <= i < |ws| ==> ws[i] == 0
  }

  lemma AppendSymbol(k: nat, c: bv32, v: bv32)
    requires k < 6 && c < Limit(k) && v < 32
    ensures Step(c, v) == Appended(c, v)
    ensures Step(c, v) < Limit(k + 1)
    ensures Step(c, v) == 0 <==> c == 0 && v == 0
  {
    hide Step;
    SmallStep(c, v);
    if k == 0 {} else if k == 1 {} else if k == 2 {} else if k == 3 {} else if k == 4 {} else {}
  }

  /** From state 0, up to six symbols are still fully recorded in the state. */
  lemma {:induction false} ShortRun(ws: seq<bv32>)
    requires |ws| <= 6 && Symbols(ws)
    ensures Run(0, ws) < Limit(|ws|)
    ensures Run(0, ws) == 0 <==> AllZero(ws)
    decreases |ws|
  {
    hide Step, Run, Limit, AllZero, Symbols;
    if ws == [] {
      EmptyRun();
    } else {
      var k := |ws| - 1;
      SymbolsLast(ws);
      ShortRun(ws[..k]);
      RunLast(0, ws);
      AppendSymbol(k, Run(0, ws[..k]), ws[k]);
      AllZeroLast(ws);
    }
  }

  lemma EmptyRun()
    ensures Run(0, []) == 0 < Limit(0) && AllZero([])
  {}

  lemma SymbolsLast(ws: seq<bv32>)
    requires ws != []
    ensures Symbols(ws) ==> Symbols(ws[..|ws| - 1]) && ws[|ws| - 1] < 32
  {}

  lemma AllZeroLast(ws: seq<bv32>)
    requires ws != []
    ensures AllZero(ws) <==> AllZero(ws[..|ws| - 1]) && ws[|ws| - 1] == 0
  {}

  lemma RunLast(chk: bv32, ws: seq<bv32>)
    requires ws != []
    ensures Run(chk, ws) == Step(Run(chk, ws[..|ws| - 1]), ws[|ws| - 1])
  {
    hide Step;
    var init, last := ws[..|ws| - 1], ws[|ws| - 1];
    RunConcat(chk, init, [last]);
    assert ws == init + [last];
    assert [last][1..] == [];
  }

  // ---- what the recurrence detects ----

  /** Two inputs agree outside the window [p, p + k). */
  predicate DifferOnlyIn(us: seq<bv32>, vs: seq<bv32>, p: nat, k: nat)
    requires |us| == |vs| && p + k <= |us|
  {
    us[..p] == vs[..p] && us[p + k..] == vs[p + k..]
  }

  lemma SymbolXor(u: bv32, v: bv32)
    requires u < 32 && v < 32
    ensures Xor(u, v) < 32
    ensures Xor(u, v) == 0 <==> u == v
  {}

  lemma DifferenceShape(us: seq<bv32>, vs: seq<bv32>, p: nat, k: nat)
    requires |us| == |vs| && p + k <= |us| && DifferOnlyIn(us, vs, p, k)
    ensures XorAll(us, vs) == Zeros(p) + XorAll(us[p..p + k], vs[p..p + k]) + Zeros(|us| - p - k)
  {
    hide Xor;
    var right := Zeros(p) + XorAll(us[p..p + k], vs[p..p + k]) + Zeros(|us| - p - k);
    forall i | 0 <= i < |us|
      ensures XorAll(us, vs)[i] == right[i]
    {
      XorUnit(us[i]);
      assert i < p ==> us[i] == us[..p][i] && vs[i] == vs[..p][i];
      assert p + k <= i ==> us[i] == us[p + k..][i - p - k] && vs[i] == vs[p + k..][i - p - k];
    }
  }

  lemma WindowNonzero(us: seq<bv32>, vs: seq<bv32>, p: nat, k: nat)
    requires |us| == |vs| && p + k <= |us| && DifferOnlyIn(us, vs, p, k)
    requires Symbols(us) && Symbols(vs)
    ensures Symbols(XorAll(us[p..p + k], vs[p..p + k]))
    ensures AllZero(XorAll(us[p..p + k], vs[p..p + k])) ==> us == vs
  {
    hide Xor;
    var window := XorAll(us[p..p + k], vs[p..p + k]);
    forall i | 0 <= i < k
      ensures window[i] < 32 && (window[i] == 0 <==> us[p + i] == vs[p + i])
    {
      SymbolXor(us[p + i], vs[p + i]);
    }
    if AllZero(window) {
      forall i | 0 <= i < |us| ensures us[i] == vs[i] {
        assert i < p ==> us[i] == us[..p][i] && vs[i] == vs[..p][i];
        assert p + k <= i ==> us[i] == us[p + k..][i - p - k] && vs[i] == vs[p + k..][i - p - k];
        assert p <= i < p + k ==> window[i - p] == 0;
      }
    }
  }

  /** Bursts: inputs of any one length that differ, but only within six consecutive symbols, never
      have the same checksum state. */
  lemma BurstDetected(chk: bv32, us: seq<bv32>, vs: seq<bv32>, p: nat, k: nat)
    requires |us| == |vs| && p + k <= |us| && k <= 6
    requires Symbols(us) && Symbols(vs)
    requires us != vs && DifferOnlyIn(us, vs, p, k)
    ensures Run(chk, us) != Run(chk, vs)
  {
    hide Xor, Run;
    var n := |us| - p - k;
    var window := XorAll(us[p..p + k], vs[p..p + k]);
    DifferenceShape(us, vs, p, k);
    WindowNonzero(us, vs, p, k);
    ShortRun(window);
    assert Run(0, window) < STATE_LIMIT by { LimitBound(k); }
    RunXor(chk, chk, us, vs);
    XorUnit(chk);
    RunConcat(0, Zeros(p) + window, Zeros(n));
    RunConcat(0, Zeros(p), window);
    ZeroRunFromZero(p);
    ZeroRunInjective(Run(0, window), n);
    XorUnit(Run(chk, us));
  }

  /** Six is the exact reach: the seven coefficients of the generator polynomial are a difference
      the recurrence cannot see. */
  lemma BurstOfSevenCanPass(chk: bv32)
    ensures var us, vs := Zeros(7), [1, 29, 22, 20, 21, 29, 18];
            Symbols(vs) && us != vs && Run(chk, us) == Run(chk, vs)
  {
    hide Xor, Run;
    var us, vs: seq<bv32> := Zeros(7), [1, 29, 22, 20, 21, 29, 18];
    assert us[0] != vs[0];
    SevenSteps();
    RunXor(chk, 0, us, vs);
    assert XorAll(us, vs) == vs by {
      forall i | 0 <= i < 7 ensures Xor(us[i], vs[i]) == vs[i] { XorUnit(vs[i]); }
    }
    XorUnit(chk);
    XorUnit(Run(chk, us));
    XorComm(chk, 0);
  }

  lemma SevenSteps()
    ensures Run(0, [1, 29, 22, 20, 21, 29, 18]) == 0
  {
    hide Step;
    SmallStep(0, 1);
    SmallStep(1, 29);
    SmallStep(0x3d, 22);
    SmallStep(0x7b6, 20);
    SmallStep(0xf6d4, 21);
    SmallStep(0x1eda95, 29);
    var c: bv32 := 0x3db52bd;
    assert Step(c, 18) == 0 by { LastStep(); }
    RunTwo(0, 1, 29, [22, 20, 21, 29, 18]);
    RunTwo(0x3d, 22, 20, [21, 29, 18]);
    RunTwo(0xf6d4, 21, 29, [18]);
    assert Run(c, [18]) == 0 by { assert [18][1..] == []; }
  }

  lemma LastStep()
    ensures Step(0x3db52bd, 18) == 0
  {
    hide Feedback;
    FeedbackUnrolled(0x3db52bd >> 25);
  }

  lemma RunTwo(chk: bv32, u: bv32, v: bv32, ws: seq<bv32>)
    ensures Run(chk, [u, v] + ws) == Run(Step(Step(chk, u), v), ws)
  {
    hide Step;
    assert ([u, v] + ws)[1..] == [v] + ws;
    assert ([v] + ws)[1..] == ws;
  }

  lemma LimitBound(k: nat)
    ensures Limit(k) <= STATE_LIMIT
  {}

  // ---- bytes and words ----

  lemma SymbolWord(v: byte)
    requires v < 32
    ensures (v as bv32) < 32
    ensures (v as bv32) as nat == v
  {}

  lemma WordSymbol(x: bv32)
    requires x < 32
    ensures (x as nat) < 32
    ensures (x as nat) as bv32 == x
  {}

  lemma WordsOfSymbols(values: seq<byte>)
    requires forall i :: 0 <= i < |values| ==> values[i] < 32
    ensures Symbols(Words(values))
  {
    forall i | 0 <= i < |values| ensures Words(values)[i] < 32 { SymbolWord(values[i]); }
  }

  lemma WordsInjective(us: seq<byte>, vs: seq<byte>)
    requires forall i :: 0 <= i < |us| ==> us[i] < 32
    requires forall i :: 0 <= i < |vs| ==> vs[i] < 32
    requires Words(us) == Words(vs)
    ensures us == vs
  {
    assert |us| == |Words(us)| == |vs|;
    forall i | 0 <= i < |us| ensures us[i] == vs[i] {
      assert Words(us)[i] == Words(vs)[i];
      SymbolWord(us[i]);
      SymbolWord(vs[i]);
    }
  }

  lemma WordsConcat(us: seq<byte>, vs: seq<byte>)
    ensures Words(us + vs) == Words(us) + Words(vs)
  {
    forall i | 0 <= i < |us| + |vs| ensures Words(us + vs)[i] == (Words(us) + Words(vs))[i] {
      assert (us + vs)[i] == if i < |us| then us[i] else vs[i - |us|];
    }
  }
}
