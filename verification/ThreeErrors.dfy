/** Three wrong symbols. The generator polynomial has three successive powers of zeta, times a first root,
among its roots: it is a Bose-Chaudhuri-Hocquenghem code, and no difference in at most three symbols,
less than 1023 apart, goes unseen. */
module ThreeErrors {
  import opened Polymod
  import opened Field32
  import opened Field1024

  // ---- evaluating a state at a root ----

  /** Multiplication by the three roots: a first one, and that times zeta and zeta^2. UNROOT undoes the
      first. */
  const ROOT0: Matrix := Matrix(0x1bd, 0x353, 0x3af, 0x27e, 0x1f5, 0x65, 0xca, 0x194, 0x301, 0x322)
  const ROOT1: Matrix := Matrix(0x65, 0xca, 0x194, 0x301, 0x322, 0x3d0, 0x2a9, 0x72, 0xcd, 0x19a)
  const ROOT2: Matrix := Matrix(0x3d0, 0x2a9, 0x72, 0xcd, 0x19a, 0x104, 0x208, 0x130, 0x249, 0x1b2)
  const UNROOT: Matrix := Matrix(0x164, 0x2c8, 0xb0, 0x149, 0x292, 0xac, 0x158, 0x299, 0x3b, 0x5f)

  lemma SecondRoot()
    ensures Maps(Z1, ROOT0, ROOT1)
  {}

  lemma FirstCommutes()
    ensures Maps(ROOT0, Z1, ROOT1)
  {}

  lemma ThirdRoot()
    ensures Maps(Z1, ROOT1, ROOT2)
  {}

  lemma RootUndone()
    ensures Maps(UNROOT, ROOT0, ONE)
  {}

  lemma RootElements()
    ensures Elements(ROOT0) && Elements(ROOT1) && Elements(ROOT2)
  {}

  function Root(j: nat): Matrix
    requires j < 3
  {
    if j == 0 then ROOT0 else if j == 1 then ROOT1 else ROOT2
  }

  function ByRoot(j: nat, z: bv32): bv32
    requires j < 3
  {
    Apply(Root(j), z)
  }

  lemma ByRootXor(j: nat, x: bv32, y: bv32)
    requires j < 3
    ensures ByRoot(j, Xor(x, y)) == Xor(ByRoot(j, x), ByRoot(j, y))
  {
    ApplyXor(Root(j), x, y);
  }

  lemma ByRootElement(j: nat, z: bv32)
    requires j < 3
    ensures Element(ByRoot(j, z))
  {
    hide Elements;
    RootElements();
    ApplyElement(Root(j), z);
  }

  function Next(j: nat, z: bv32, symbol: bv32): bv32
    requires j < 3
  {
    Xor(ByRoot(j, z), symbol)
  }

  lemma NextXor(j: nat, x: bv32, y: bv32, u: bv32, v: bv32)
    requires j < 3
    ensures Next(j, Xor(x, y), Xor(u, v)) == Xor(Next(j, x, u), Next(j, y, v))
  {
    hide Xor, ByRoot;
    ByRootXor(j, x, y);
    XorSwap(ByRoot(j, x), ByRoot(j, y), u, v);
  }

  /** The i-th symbol packed in a state, the last one first. */
  function Symbol(c: bv32, i: nat): bv32
    requires i < 6
  {
    if i == 0 then c & 31 else if i == 1 then (c >> 5) & 31 else if i == 2 then (c >> 10) & 31
    else if i == 3 then (c >> 15) & 31 else if i == 4 then (c >> 20) & 31 else (c >> 25) & 31
  }

  /** The state's first n + 1 symbols as a polynomial, evaluated at a root. */
  function Partial(j: nat, c: bv32, n: nat): bv32
    requires j < 3 && n < 6
  {
    if n == 0 then Symbol(c, 5) else Next(j, Partial(j, c, n - 1), Symbol(c, 5 - n))
  }

  function Value(j: nat, c: bv32): bv32
    requires j < 3
  {
    Partial(j, c, 5)
  }

  lemma DigitXor(a: bv32, b: bv32, i: nat)
    requires i < 6
    ensures Symbol(Xor(a, b), i) == Xor(Symbol(a, i), Symbol(b, i))
  {
    if i == 0 {} else if i == 1 {} else if i == 2 {} else if i == 3 {} else if i == 4 {} else {}
  }

  lemma {:induction false} PartialXor(j: nat, a: bv32, b: bv32, n: nat)
    requires j < 3 && n < 6
    ensures Partial(j, Xor(a, b), n) == Xor(Partial(j, a, n), Partial(j, b, n))
  {
    hide Xor, Symbol, Next;
    DigitXor(a, b, 5 - n);
    if n > 0 {
      PartialXor(j, a, b, n - 1);
      NextXor(j, Partial(j, a, n - 1), Partial(j, b, n - 1), Symbol(a, 5 - n), Symbol(b, 5 - n));
    }
  }

  // ---- alpha commutes with everything ----

  /** Multiplication by alpha, as a matrix, and its products with the roots. */
  const ALPHA: Matrix := Matrix(0x2, 0x4, 0x8, 0x10, 0x9, 0x40, 0x80, 0x100, 0x200, 0x120)
  const ALPHA0: Matrix := Matrix(0x353, 0x3af, 0x27e, 0x1f5, 0x3c3, 0xca, 0x194, 0x301, 0x322, 0x364)
  const ALPHA1: Matrix := Matrix(0xca, 0x194, 0x301, 0x322, 0x364, 0x2a9, 0x72, 0xcd, 0x19a, 0x31d)
  const ALPHA2: Matrix := Matrix(0x2a9, 0x72, 0xcd, 0x19a, 0x31d, 0x208, 0x130, 0x249, 0x1b2, 0x34d)

  lemma RootAlpha0()
    ensures Maps(ROOT0, ALPHA, ALPHA0)
  {}

  lemma AlphaRoot0()
    ensures Maps(ALPHA, ROOT0, ALPHA0)
  {}

  lemma RootAlpha1()
    ensures Maps(ROOT1, ALPHA, ALPHA1)
  {}

  lemma AlphaRoot1()
    ensures Maps(ALPHA, ROOT1, ALPHA1)
  {}

  lemma RootAlpha2()
    ensures Maps(ROOT2, ALPHA, ALPHA2)
  {}

  lemma AlphaRoot2()
    ensures Maps(ALPHA, ROOT2, ALPHA2)
  {}

  lemma AlphaColumn(i: nat)
    requires i < 10
    ensures ALPHA.Column(i) == Alpha(ONE.Column(i))
  {
    if i == 0 {} else if i == 1 {} else if i == 2 {} else if i == 3 {} else if i == 4 {} else if i == 5 {}
    else if i == 6 {} else if i == 7 {} else if i == 8 {} else {}
  }

  lemma AlphaNothing()
    ensures Alpha(0) == 0
  {}

  lemma {:induction false} AlphaSum(z: bv32, n: nat)
    requires n <= 10
    ensures Alpha(Sum(z, ONE, n)) == Sum(z, ALPHA, n)
  {
    hide Alpha, Xor, Bit, Mask, Matrix.Column;
    AlphaNothing();
    if n > 0 {
      AlphaSum(z, n - 1);
      AlphaColumn(n - 1);
      AlphaXor(Sum(z, ONE, n - 1), Picked(z, Mask(n - 1), ONE.Column(n - 1)));
    }
  }

  lemma AlphaIsMatrix(z: bv32)
    requires Element(z)
    ensures Alpha(z) == Apply(ALPHA, z)
  {
    hide Alpha, Sum;
    ApplyOne(z);
    AlphaSum(z, 10);
  }

  lemma ByRootAlpha(j: nat, z: bv32)
    requires j < 3 && Element(z)
    ensures ByRoot(j, Alpha(z)) == Alpha(ByRoot(j, z))
  {
    hide Apply, Maps, Alpha, Element;
    AlphaIsMatrix(z);
    ByRootElement(j, z);
    AlphaIsMatrix(ByRoot(j, z));
    RootAlpha0();
    AlphaRoot0();
    RootAlpha1();
    AlphaRoot1();
    RootAlpha2();
    AlphaRoot2();
    var scaled := if j == 0 then ALPHA0 else if j == 1 then ALPHA1 else ALPHA2;
    Composed(Root(j), ALPHA, scaled, z);
    Composed(ALPHA, Root(j), scaled, z);
  }

  lemma DigitAlpha(c: bv32, i: nat)
    requires i < 6 && c < STATE_LIMIT
    ensures Symbol(Alpha(c), i) == Alpha(Symbol(c, i)) && Element(Symbol(c, i))
  {
    hide Symbol, Alpha, Element;
    if i < 3 { LowDigitAlpha(c, i); } else { HighDigitAlpha(c, i); }
  }

  lemma LowDigitAlpha(c: bv32, i: nat)
    requires i < 3 && c < STATE_LIMIT
    ensures Symbol(Alpha(c), i) == Alpha(Symbol(c, i)) && Element(Symbol(c, i))
  {
    if i == 0 {} else if i == 1 {} else {}
  }

  lemma HighDigitAlpha(c: bv32, i: nat)
    requires 3 <= i < 6 && c < STATE_LIMIT
    ensures Symbol(Alpha(c), i) == Alpha(Symbol(c, i)) && Element(Symbol(c, i))
  {
    if i == 3 {} else if i == 4 {} else {}
  }

  lemma {:induction false} PartialAlpha(j: nat, c: bv32, n: nat)
    requires j < 3 && n < 6 && c < STATE_LIMIT
    ensures Partial(j, Alpha(c), n) == Alpha(Partial(j, c, n)) && Element(Partial(j, c, n))
  {
    hide Alpha, Xor, Symbol, ByRoot, Element;
    DigitAlpha(c, 5 - n);
    if n > 0 {
      var before := Partial(j, c, n - 1);
      PartialAlpha(j, c, n - 1);
      ByRootAlpha(j, before);
      ByRootElement(j, before);
      ElementXor(ByRoot(j, before), Symbol(c, 5 - n));
      AlphaXor(ByRoot(j, before), Symbol(c, 5 - n));
    }
  }

  // ---- the generator words have the roots ----

  /** The n-th power of the root times z. */
  function RootPower(j: nat, n: nat, z: bv32): bv32
    requires j < 3
  {
    if n == 0 then z else ByRoot(j, RootPower(j, n - 1, z))
  }

  lemma {:induction false} RootPowerElement(j: nat, n: nat, z: bv32)
    requires j < 3 && Element(z)
    ensures Element(RootPower(j, n, z))
  {
    hide ByRoot, Element;
    if n > 0 {
      ByRootElement(j, RootPower(j, n - 1, z));
    }
  }

  lemma {:induction false} RootPowerXor(j: nat, n: nat, x: bv32, y: bv32)
    requires j < 3
    ensures RootPower(j, n, Xor(x, y)) == Xor(RootPower(j, n, x), RootPower(j, n, y))
  {
    hide ByRoot, Xor;
    if n > 0 {
      RootPowerXor(j, n - 1, x, y);
      ByRootXor(j, RootPower(j, n - 1, x), RootPower(j, n - 1, y));
    }
  }

  lemma {:induction false} RootPowerAlpha(j: nat, n: nat, z: bv32)
    requires j < 3 && Element(z)
    ensures RootPower(j, n, Alpha(z)) == Alpha(RootPower(j, n, z))
  {
    hide ByRoot, Alpha, Element;
    if n > 0 {
      RootPowerAlpha(j, n - 1, z);
      RootPowerElement(j, n - 1, z);
      ByRootAlpha(j, RootPower(j, n - 1, z));
    }
  }

  /** The first generator word is x^6 modulo the generator polynomial; at a root they agree. */
  predicate Horner(a: Matrix, v1: bv32, v2: bv32, v3: bv32, v4: bv32, v5: bv32) {
    && Xor(Spelled(29, a), 22) == v1 && Xor(Spelled(v1, a), 20) == v2 && Xor(Spelled(v2, a), 21) == v3
    && Xor(Spelled(v3, a), 29) == v4 && Xor(Spelled(v4, a), 18) == v5
  }

  predicate Sixth(a: Matrix, p1: bv32, p2: bv32, p3: bv32, p4: bv32, p5: bv32, p6: bv32) {
    && Spelled(1, a) == p1 && Spelled(p1, a) == p2 && Spelled(p2, a) == p3
    && Spelled(p3, a) == p4 && Spelled(p4, a) == p5 && Spelled(p5, a) == p6
  }

  lemma Generator0()
    ensures Horner(ROOT0, 0x18f, 0x1be, 0x192, 0x2e, 0x2f5)
    ensures Sixth(ROOT0, 0x1bd, 0x369, 0x34f, 0x3d6, 0x74, 0x2f5)
  {}

  lemma Generator1()
    ensures Horner(ROOT1, 0x1c4, 0x396, 0x34c, 0x176, 0x3da)
    ensures Sixth(ROOT1, 0x65, 0x88, 0x373, 0x3a3, 0x25a, 0x3da)
  {}

  lemma Generator2()
    ensures Horner(ROOT2, 0x2e3, 0x2e3, 0x2e2, 0x13a, 0xa1)
    ensures Sixth(ROOT2, 0x3d0, 0x159, 0x2c6, 0x51, 0x42, 0xa1)
  {}

  lemma GeneratorDigits()
    ensures var g := GENERATOR[0];
            && Symbol(g, 5) == 29 && Symbol(g, 4) == 22 && Symbol(g, 3) == 20
            && Symbol(g, 2) == 21 && Symbol(g, 1) == 29 && Symbol(g, 0) == 18
  {}

  lemma HornerValue(j: nat, v1: bv32, v2: bv32, v3: bv32, v4: bv32, v5: bv32)
    requires j < 3 && Horner(Root(j), v1, v2, v3, v4, v5)
    ensures Value(j, GENERATOR[0]) == v5
  {
    hide Spelled, Xor, Symbol, Apply;
    GeneratorDigits();
    var g, a := GENERATOR[0], Root(j);
    SumSpelled(a, 29);
    SumSpelled(a, v1);
    SumSpelled(a, v2);
    SumSpelled(a, v3);
    SumSpelled(a, v4);
    assert Partial(j, g, 1) == v1;
    assert Partial(j, g, 2) == v2;
    assert Partial(j, g, 3) == v3;
    assert Partial(j, g, 4) == v4;
  }

  lemma SixthValue(j: nat, p1: bv32, p2: bv32, p3: bv32, p4: bv32, p5: bv32, p6: bv32)
    requires j < 3 && Sixth(Root(j), p1, p2, p3, p4, p5, p6)
    ensures RootPower(j, 6, 1) == p6
  {
    hide Spelled, Apply;
    var a := Root(j);
    SumSpelled(a, 1);
    SumSpelled(a, p1);
    SumSpelled(a, p2);
    SumSpelled(a, p3);
    SumSpelled(a, p4);
    SumSpelled(a, p5);
    assert RootPower(j, 1, 1) == p1;
    assert RootPower(j, 2, 1) == p2;
    assert RootPower(j, 3, 1) == p3;
    assert RootPower(j, 4, 1) == p4;
    assert RootPower(j, 5, 1) == p5;
  }

  lemma FirstWord(j: nat)
    requires j < 3
    ensures Value(j, GENERATOR[0]) == RootPower(j, 6, 1)
  {
    hide Horner, Sixth, Value, RootPower;
    if j == 0 {
      Generator0();
      HornerValue(0, 0x18f, 0x1be, 0x192, 0x2e, 0x2f5);
      SixthValue(0, 0x1bd, 0x369, 0x34f, 0x3d6, 0x74, 0x2f5);
    } else if j == 1 {
      Generator1();
      HornerValue(1, 0x1c4, 0x396, 0x34c, 0x176, 0x3da);
      SixthValue(1, 0x65, 0x88, 0x373, 0x3a3, 0x25a, 0x3da);
    } else {
      Generator2();
      HornerValue(2, 0x2e3, 0x2e3, 0x2e2, 0x13a, 0xa1);
      SixthValue(2, 0x3d0, 0x159, 0x2c6, 0x51, 0x42, 0xa1);
    }
  }

  lemma GeneratorNext(i: nat)
    requires i < 4
    ensures Alpha(GENERATOR[i]) == GENERATOR[i + 1] && GENERATOR[i] < STATE_LIMIT && Alpha(UNIT[i]) == UNIT[i + 1] && Element(UNIT[i])
  {
    if i == 0 {} else if i == 1 {} else if i == 2 {} else {}
  }

  const UNIT: seq<bv32> := [1, 2, 4, 8, 16]

  lemma {:induction false} EveryWord(j: nat, i: nat)
    requires j < 3 && i < 5
    ensures Value(j, GENERATOR[i]) == RootPower(j, 6, UNIT[i])
  {
    hide Alpha, Partial, RootPower, Element;
    if i == 0 {
      FirstWord(j);
    } else {
      EveryWord(j, i - 1);
      GeneratorNext(i - 1);
      PartialAlpha(j, GENERATOR[i - 1], 5);
      RootPowerAlpha(j, 6, UNIT[i - 1]);
    }
  }

  // ---- a step multiplies by the root ----

  predicate Bound(t: bv32) { t < 32 }

  lemma FiveBits(t: bv32)
    requires Bound(t)
    ensures t & 0 == 0 && t & 31 == t
  {}

  lemma TapBit(t: bv32)
    ensures BitSet(t, 0) == Bit(t, 1) && BitSet(t, 1) == Bit(t, 2) && BitSet(t, 2) == Bit(t, 4)
    ensures BitSet(t, 3) == Bit(t, 8) && BitSet(t, 4) == Bit(t, 16)
  {}

  /** Adding one generator word, if t selects it, adds its bit of t, times the sixth power. */
  lemma OneTap(j: nat, t: bv32, sum: bv32, low: bv32, i: nat, mask: bv32)
    requires j < 3 && i < 5 && mask == UNIT[i] && BitSet(t, i) == Bit(t, mask)
    requires Value(j, sum) == RootPower(j, 6, low)
    ensures Value(j, Xor(sum, Tap(t, i))) == RootPower(j, 6, Added(low, t, mask, mask))
  {
    hide Xor, Partial, RootPower, BitSet, Bit;
    EveryWord(j, i);
    PartialXor(j, sum, GENERATOR[i], 5);
    RootPowerXor(j, 6, low, UNIT[i]);
    XorUnit(sum);
  }

  lemma ZeroValue(j: nat)
    requires j < 3
    ensures Value(j, 0) == 0 && RootPower(j, 6, 0) == 0
  {
    hide Xor, Partial, RootPower;
    XorUnit(0);
    PartialXor(j, 0, 0, 5);
    XorUnit(Value(j, 0));
    RootPowerXor(j, 6, 0, 0);
    XorUnit(RootPower(j, 6, 0));
  }

  lemma FeedbackNext5(t: bv32)
    ensures Feedback(t, 0) == 0 && Feedback(t, 1) == Xor(Feedback(t, 0), Tap(t, 0)) && Feedback(t, 2) == Xor(Feedback(t, 1), Tap(t, 1))
    ensures Feedback(t, 3) == Xor(Feedback(t, 2), Tap(t, 2)) && Feedback(t, 4) == Xor(Feedback(t, 3), Tap(t, 3))
    ensures Feedback(t, 5) == Xor(Feedback(t, 4), Tap(t, 4))
  {
    hide Xor, Tap;
  }

  /** What the feedback puts in for the symbol shifted out is that symbol times x^6. */
  lemma FeedbackValue(j: nat, t: bv32)
    requires j < 3 && Bound(t)
    ensures Value(j, Feedback(t, 5)) == RootPower(j, 6, t)
  {
    hide Feedback, Tap, Xor, Value, RootPower, BitSet, Bit, Added;
    FeedbackNext5(t);
    TapBit(t);
    ZeroValue(j);
    FiveBits(t);
    OneTap(j, t, Feedback(t, 0), t & 0, 0, 1);
    BitUp1(t);
    OneTap(j, t, Feedback(t, 1), t & 1, 1, 2);
    BitUp2(t);
    OneTap(j, t, Feedback(t, 2), t & 3, 2, 4);
    BitUp3(t);
    OneTap(j, t, Feedback(t, 3), t & 7, 3, 8);
    BitUp4(t);
    OneTap(j, t, Feedback(t, 4), t & 15, 4, 16);
    BitUp5(t);
  }

  lemma ShiftedSymbols(c: bv32)
    requires c < STATE_LIMIT
    ensures Symbol(Shifted(c), 5) == Symbol(c, 4) && Symbol(Shifted(c), 4) == Symbol(c, 3) && Symbol(Shifted(c), 3) == Symbol(c, 2)
    ensures Symbol(Shifted(c), 2) == Symbol(c, 1) && Symbol(Shifted(c), 1) == Symbol(c, 0) && Symbol(Shifted(c), 0) == 0
    ensures Symbol(c, 5) == c >> 25 && Bound(c >> 25)
  {}

  lemma PartialNext(j: nat, c: bv32, n: nat)
    requires j < 3 && 0 < n < 6
    ensures Partial(j, c, n) == Xor(ByRoot(j, Partial(j, c, n - 1)), Symbol(c, 5 - n))
  {
    hide Symbol, ByRoot, Xor;
  }

  lemma PartialFirst(j: nat, c: bv32)
    requires j < 3
    ensures Partial(j, c, 0) == Symbol(c, 5)
  {}

  lemma RootPowerNext(j: nat, n: nat, z: bv32)
    requires j < 3
    ensures RootPower(j, 0, z) == z && RootPower(j, n + 1, z) == ByRoot(j, RootPower(j, n, z))
  {
    hide ByRoot;
  }

  /** Shifting takes the first symbol's part out of the polynomial. */
  lemma {:induction false} ShiftedPartial(j: nat, c: bv32, n: nat)
    requires j < 3 && n < 5 && c < STATE_LIMIT
    ensures Partial(j, c, n + 1) == Xor(RootPower(j, n + 1, c >> 25), Partial(j, Shifted(c), n))
  {
    hide Symbol, Shifted, ByRoot, Xor, Bound, Partial, RootPower;
    var t := c >> 25;
    PartialNext(j, c, n + 1);
    RootPowerNext(j, n, t);
    SymbolShifted(c, 5 - n);
    if n == 0 {
      ShiftedSymbols(c);
      PartialFirst(j, c);
      PartialFirst(j, Shifted(c));
    } else {
      ShiftedPartial(j, c, n - 1);
      PartialNext(j, Shifted(c), n);
      var p, q := RootPower(j, n, t), Partial(j, Shifted(c), n - 1);
      ByRootXor(j, p, q);
      XorAssoc(ByRoot(j, p), ByRoot(j, q), Symbol(c, 4 - n));
    }
  }

  lemma SymbolShifted(c: bv32, i: nat)
    requires 1 <= i < 6 && c < STATE_LIMIT
    ensures Symbol(Shifted(c), i) == Symbol(c, i - 1)
  {
    hide Symbol, Shifted;
    ShiftedSymbols(c);
  }

  lemma ShiftedValue(j: nat, c: bv32)
    requires j < 3 && c < STATE_LIMIT
    ensures Xor(Value(j, Shifted(c)), RootPower(j, 6, c >> 25)) == ByRoot(j, Value(j, c))
  {
    hide Symbol, Shifted, ByRoot, Xor, Bound, Partial;
    var t := c >> 25;
    ShiftedSymbols(c);
    ShiftedPartial(j, c, 4);
    var q := Partial(j, Shifted(c), 4);
    ByRootXor(j, RootPower(j, 5, t), q);
    LastPartial(j, Shifted(c));
    XorUnit(ByRoot(j, q));
    XorComm(ByRoot(j, q), RootPower(j, 6, t));
  }

  lemma LastPartial(j: nat, c: bv32)
    requires j < 3
    ensures Value(j, c) == Xor(ByRoot(j, Partial(j, c, 4)), Symbol(c, 0))
  {
    hide Symbol, ByRoot, Xor;
  }

  lemma SymbolOnly(v: bv32)
    requires Bound(v)
    ensures Symbol(v, 5) == 0 && Symbol(v, 4) == 0 && Symbol(v, 3) == 0 && Symbol(v, 2) == 0 && Symbol(v, 1) == 0 && Symbol(v, 0) == v
  {}

  lemma SymbolValue(j: nat, v: bv32)
    requires j < 3 && Bound(v)
    ensures Value(j, v) == v
  {
    hide Symbol, ByRoot, Xor, Bound;
    SymbolOnly(v);
    ByRootNothing(j);
    XorUnit(0);
    XorUnit(v);
    assert Partial(j, v, 1) == 0;
    assert Partial(j, v, 2) == 0;
    assert Partial(j, v, 3) == 0;
    assert Partial(j, v, 4) == 0;
  }

  lemma ByRootNothing(j: nat)
    requires j < 3
    ensures ByRoot(j, 0) == 0
  {
    ApplyNothing(Root(j));
  }

  lemma StepValue(j: nat, c: bv32, v: bv32)
    requires j < 3 && c < STATE_LIMIT && Bound(v)
    ensures Value(j, Step(c, v)) == Next(j, Value(j, c), v)
  {
    hide Shifted, Feedback, Xor, Value, ByRoot, RootPower, Bound;
    var t := c >> 25;
    ShiftedSymbols(c);
    ValueXor(j, Xor(Shifted(c), v), Feedback(t, 5));
    ValueXor(j, Shifted(c), v);
    SymbolValue(j, v);
    FeedbackValue(j, t);
    ShiftedValue(j, c);
    var a, b := Value(j, Shifted(c)), RootPower(j, 6, t);
    XorAssoc(a, v, b);
    XorComm(v, b);
    XorAssoc(a, b, v);
  }

  lemma ValueXor(j: nat, a: bv32, b: bv32)
    requires j < 3
    ensures Value(j, Xor(a, b)) == Xor(Value(j, a), Value(j, b))
  {
    PartialXor(j, a, b, 5);
  }

  // ---- syndromes ----

  function Syndrome(j: nat, z: bv32, ws: seq<bv32>): bv32
    requires j < 3
    decreases |ws|
  {
    if ws == [] then z else Syndrome(j, Next(j, z, ws[0]), ws[1..])
  }

  lemma {:induction false} RunValue(j: nat, c: bv32, ws: seq<bv32>)
    requires j < 3 && c < STATE_LIMIT && Symbols(ws)
    ensures Value(j, Run(c, ws)) == Syndrome(j, Value(j, c), ws)
    decreases |ws|
  {
    hide Step, Value, Next;
    if ws != [] {
      StepValue(j, c, ws[0]);
      StepBound(c, ws[0]);
      RunValue(j, Step(c, ws[0]), ws[1..]);
    }
  }

  lemma {:induction false} SyndromeConcat(j: nat, z: bv32, us: seq<bv32>, vs: seq<bv32>)
    requires j < 3
    ensures Syndrome(j, z, us + vs) == Syndrome(j, Syndrome(j, z, us), vs)
    decreases |us|
  {
    hide Next;
    if us == [] {
      assert us + vs == vs;
    } else {
      assert (us + vs)[1..] == us[1..] + vs;
      SyndromeConcat(j, Next(j, z, us[0]), us[1..], vs);
    }
  }

  lemma {:induction false} SyndromeZeros(j: nat, z: bv32, n: nat)
    requires j < 3
    ensures Syndrome(j, z, Zeros(n)) == RootPower(j, n, z)
  {
    hide ByRoot, Xor;
    if n > 0 {
      SyndromeZeros(j, z, n - 1);
      SyndromeConcat(j, z, Zeros(n - 1), [0]);
      assert Zeros(n) == Zeros(n - 1) + [0];
      OneSymbol(j, RootPower(j, n - 1, z), 0);
      XorUnit(RootPower(j, n, z));
    }
  }

  lemma OneSymbol(j: nat, z: bv32, v: bv32)
    requires j < 3
    ensures Syndrome(j, z, [v]) == Xor(ByRoot(j, z), v)
  {
    hide ByRoot, Xor;
    assert [v][1..] == [];
  }

  // ---- three differences ----

  /** The powers of the second and third root, by those of the first and of zeta. */
  lemma {:induction false} RootPowerZeta(j: nat, n: nat, z: bv32)
    requires j < 3
    ensures RootPower(j, n, z) == Zeta(j * n, RootPower(0, n, z))
  {
    hide ByRoot, Zeta;
    RootPowerNext(j, 0, z);
    RootPowerNext(0, 0, z);
    if n == 0 {
      ZetaNone(z);
      assert j * 0 == 0;
    } else {
      RootPowerZeta(j, n - 1, z);
      RootPowerNext(j, n - 1, z);
      RootPowerNext(0, n - 1, z);
      var y, k := RootPower(0, n - 1, z), j * (n - 1);
      ByRootZeta(j, Zeta(k, y));
      FirstZeta(k, y);
      ZetaAdd(j, k, ByRoot(0, y));
      assert j * n == j + k;
    }
  }

  lemma ZetaNone(z: bv32)
    ensures Zeta(0, z) == z
  {}

  /** The roots are the first one times powers of zeta. */
  lemma ByRootZeta(j: nat, z: bv32)
    requires j < 3
    ensures ByRoot(j, z) == Zeta(j, ByRoot(0, z))
  {
    hide Apply, Maps;
    if j == 1 {
      SecondRoot();
      Composed(Z1, ROOT0, ROOT1, z);
    } else if j == 2 {
      SecondRoot();
      ThirdRoot();
      Composed(Z1, ROOT0, ROOT1, z);
      Composed(Z1, ROOT1, ROOT2, z);
    }
  }

  /** Multiplying by the first root commutes with multiplying by zeta. */
  lemma {:induction false} FirstZeta(n: nat, z: bv32)
    ensures ByRoot(0, Zeta(n, z)) == Zeta(n, ByRoot(0, z))
  {
    hide Apply, Maps;
    if n > 0 {
      FirstZeta(n - 1, z);
      SecondRoot();
      FirstCommutes();
      Composed(Z1, ROOT0, ROOT1, Zeta(n - 1, z));
      Composed(ROOT0, Z1, ROOT1, Zeta(n - 1, z));
    }
  }

  lemma FirstInjective(z: bv32)
    requires Element(z) && ByRoot(0, z) == 0
    ensures z == 0
  {
    hide Apply, Maps;
    RootUndone();
    Composed(UNROOT, ROOT0, ONE, z);
    ApplyNothing(UNROOT);
    ApplyOne(z);
  }

  lemma {:induction false} RootPowerInjective(n: nat, z: bv32)
    requires Element(z) && RootPower(0, n, z) == 0
    ensures z == 0
  {
    hide ByRoot, Element;
    if n > 0 {
      RootPowerElement(0, n - 1, z);
      FirstInjective(RootPower(0, n - 1, z));
      RootPowerInjective(n - 1, z);
    }
  }

  /** zeta^m z and zeta^n z differ, unless z is zero. */
  lemma Differ(m: nat, n: nat, z: bv32)
    requires Element(z) && n < m < 1023 && Zeta(m, z) == Zeta(n, z)
    ensures z == 0
  {
    hide Zeta, Element;
    ZetaAdd(n, m - n, z);
    ZetaElement(m - n, z);
    ZetaInjective(n, Zeta(m - n, z), z);
    Vanishes(m - n, z);
  }

  predicate Sums(x: bv32, y: bv32, z: bv32) { Xor(Xor(x, y), z) == 0 }

  /** Eliminating z: the difference that zeta^m makes to x is the one that zeta^n makes to y. */
  lemma Eliminated(x: bv32, y: bv32, z: bv32, m: nat, n: nat)
    requires Sums(x, y, z) && Sums(Zeta(m, x), Zeta(n, y), z) && Sums(Zeta(m + m, x), Zeta(n + n, y), z)
    ensures Xor(Zeta(m, x), x) == Xor(Zeta(n, y), y)
    ensures Zeta(m, Xor(Zeta(m, x), x)) == Zeta(n, Xor(Zeta(n, y), y))
  {
    hide Xor, Zeta;
    SameSum(Zeta(m, x), Zeta(n, y), x, y, z);
    ZetaAdd(m, m, x);
    ZetaAdd(n, n, y);
    SameSum(Zeta(m + m, x), Zeta(n + n, y), Zeta(m, x), Zeta(n, y), z);
    ZetaXor(m, Zeta(m, x), x);
    ZetaXor(n, Zeta(n, y), y);
  }

  /** Three elements whose sums, weighted by powers of zeta^m, zeta^n and 1, vanish for three successive
      powers are all zero, since zeta^m, zeta^n and 1 are three different elements. */
  lemma Vandermonde(x: bv32, y: bv32, z: bv32, m: nat, n: nat)
    requires Element(x) && Element(y) && 0 < n < m < 1023
    requires Sums(x, y, z) && Sums(Zeta(m, x), Zeta(n, y), z) && Sums(Zeta(m + m, x), Zeta(n + n, y), z)
    ensures x == 0 && y == 0 && z == 0
  {
    hide Xor, Zeta, Element;
    Eliminated(x, y, z, m, n);
    var u := Xor(Zeta(m, x), x);
    ZetaElement(m, x);
    ElementXor(Zeta(m, x), x);
    Differ(m, n, u);
    XorCancel(Zeta(m, x), x);
    XorCancel(Zeta(n, y), y);
    Vanishes(m, x);
    Vanishes(n, y);
    XorUnit(0);
    XorUnit(z);
  }

  lemma Vanishes(n: nat, z: bv32)
    requires Element(z) && 0 < n < 1023 && Zeta(n, z) == z
    ensures z == 0
  {
    Order(n, z);
  }

  lemma SameSum(a: bv32, b: bv32, c: bv32, d: bv32, z: bv32)
    requires Sums(a, b, z) && Sums(c, d, z)
    ensures Xor(a, c) == Xor(b, d)
  {
    hide Xor;
    XorCancel(Xor(a, b), z);
    XorCancel(Xor(c, d), z);
    assert Xor(a, b) == z == Xor(c, d);
    XorUnit(z);
    XorSwap(a, b, c, d);
    XorCancel(Xor(a, c), Xor(b, d));
  }

  /** The syndrome after one more symbol, some zeros before it. */
  lemma SyndromeNext(j: nat, ws: seq<bv32>, k: nat, v: bv32)
    requires j < 3
    ensures Syndrome(j, 0, ws + Zeros(k) + [v]) == Xor(RootPower(j, k + 1, Syndrome(j, 0, ws)), v)
  {
    hide Syndrome, Xor, ByRoot, RootPower;
    var z := Syndrome(j, 0, ws);
    SyndromeConcat(j, 0, ws + Zeros(k), [v]);
    SyndromeConcat(j, 0, ws, Zeros(k));
    SyndromeZeros(j, z, k);
    OneSymbol(j, RootPower(j, k, z), v);
    RootPowerNext(j, k, z);
  }

  /** The syndromes of a difference in three symbols. */
  lemma SyndromeOfThree(j: nat, x: bv32, y: bv32, z: bv32, m: nat, n: nat)
    requires j < 3 && 0 < n < m
    ensures Syndrome(j, 0, [x] + Zeros(m - n - 1) + [y] + Zeros(n - 1) + [z])
         == Xor(Xor(RootPower(j, m, x), RootPower(j, n, y)), z)
  {
    hide Syndrome, Xor, ByRoot, RootPower;
    ByRootNothing(j);
    OneSymbol(j, 0, x);
    XorUnit(x);
    SyndromeNext(j, [x], m - n - 1, y);
    SyndromeNext(j, [x] + Zeros(m - n - 1) + [y], n - 1, z);
    RootPowerXor(j, n, RootPower(j, m - n, x), y);
    RootPowerAdd(j, n, m - n, x);
  }

  lemma {:induction false} RootPowerAdd(j: nat, m: nat, n: nat, z: bv32)
    requires j < 3
    ensures RootPower(j, m + n, z) == RootPower(j, m, RootPower(j, n, z))
  {
    hide ByRoot;
    if m > 0 {
      RootPowerAdd(j, m - 1, n, z);
    }
  }

  lemma SymbolsConcat(us: seq<bv32>, vs: seq<bv32>)
    ensures Symbols(us) && Symbols(vs) ==> Symbols(us + vs)
  {}

  lemma ThreeSymbols(x: bv32, y: bv32, z: bv32, m: nat, n: nat)
    requires x < 32 && y < 32 && z < 32
    ensures Symbols([x] + Zeros(m) + [y] + Zeros(n) + [z])
  {
    assert Symbols([x]) && Symbols([y]) && Symbols([z]);
    hide Symbols;
    SymbolsConcat([x], Zeros(m));
    SymbolsConcat([x] + Zeros(m), [y]);
    SymbolsConcat([x] + Zeros(m) + [y], Zeros(n));
    SymbolsConcat([x] + Zeros(m) + [y] + Zeros(n), [z]);
  }

  /** From state 0, three symbols less than 1023 apart vanish only if they are all zero. */
  lemma ThreeVanish(x: bv32, y: bv32, z: bv32, m: nat, n: nat)
    requires x < 32 && y < 32 && z < 32 && 0 < n < m < 1023
    requires Run(0, [x] + Zeros(m - n - 1) + [y] + Zeros(n - 1) + [z]) == 0
    ensures x == 0 && y == 0 && z == 0
  {
    hide Run, Syndrome, Xor, RootPower, Zeta, Value;
    var ws := [x] + Zeros(m - n - 1) + [y] + Zeros(n - 1) + [z];
    ThreeSymbols(x, y, z, m - n - 1, n - 1);
    var x0, y0 := RootPower(0, m, x), RootPower(0, n, y);
    forall j | 0 <= j < 3
      ensures Sums(Zeta(j * m, x0), Zeta(j * n, y0), z)
    {
      ZeroValue(j);
      RunValue(j, 0, ws);
      SyndromeOfThree(j, x, y, z, m, n);
      RootPowerZeta(j, m, x);
      RootPowerZeta(j, n, y);
    }
    RootPowerElement(0, m, x);
    RootPowerElement(0, n, y);
    ThreeSums(x0, y0, z, m, n);
    RootPowerInjective(m, x);
    RootPowerInjective(n, y);
  }

  lemma ThreeSums(x: bv32, y: bv32, z: bv32, m: nat, n: nat)
    requires Element(x) && Element(y) && 0 < n < m < 1023
    requires forall j {:trigger Zeta(j * m, x)} :: 0 <= j < 3 ==> Sums(Zeta(j * m, x), Zeta(j * n, y), z)
    ensures x == 0 && y == 0 && z == 0
  {
    hide Sums, Zeta, Element;
    assert 0 * m == 0 && 0 * n == 0 && 1 * m == m && 1 * n == n && 2 * m == m + m && 2 * n == n + n;
    assert Sums(Zeta(0 * m, x), Zeta(0 * n, y), z);
    assert Sums(Zeta(1 * m, x), Zeta(1 * n, y), z);
    assert Sums(Zeta(2 * m, x), Zeta(2 * n, y), z);
    ZetaNone(x);
    ZetaNone(y);
    Vandermonde(x, y, z, m, n);
  }

  // ---- the theorem ----

  predicate DifferAtMostAt(us: seq<bv32>, vs: seq<bv32>, p: nat, q: nat, r: nat)
    requires |us| == |vs|
  {
    forall i :: 0 <= i < |us| && i != p && i != q && i != r ==> us[i] == vs[i]
  }

  /** Only the first, the k-th and the last symbol can be nonzero. */
  predicate Sparse(ws: seq<bv32>, k: nat) {
    0 < k < |ws| - 1 && forall i :: 0 < i < |ws| - 1 && i != k ==> ws[i] == 0
  }

  lemma SparseShape(ws: seq<bv32>, k: nat)
    requires Sparse(ws, k)
    ensures ws == [ws[0]] + Zeros(k - 1) + [ws[k]] + Zeros(|ws| - k - 2) + [ws[|ws| - 1]]
    ensures ws[0] == 0 && ws[k] == 0 && ws[|ws| - 1] == 0 ==> AllZero(ws)
  {}

  lemma SparseSeen(ws: seq<bv32>, k: nat)
    requires Sparse(ws, k) && Symbols(ws) && |ws| <= 1023
    ensures Run(0, ws) == 0 ==> AllZero(ws)
  {
    hide Run, AllZero;
    SparseShape(ws, k);
    if Run(0, ws) == 0 {
      ThreeVanish(ws[0], ws[k], ws[|ws| - 1], |ws| - 1, |ws| - 1 - k);
    }
  }

  lemma SparseDifference(us: seq<bv32>, vs: seq<bv32>, p: nat, q: nat, r: nat)
    requires |us| == |vs| && p < q < r < |us| && DifferAtMostAt(us, vs, p, q, r)
    ensures Sparse(XorAll(us[p..r + 1], vs[p..r + 1]), q - p) && DifferOnlyIn(us, vs, p, r - p + 1)
  {
    hide Xor;
    forall i | p < i < r && i != q ensures Xor(us[i], vs[i]) == 0 {
      XorUnit(us[i]);
    }
  }

  /** Inputs of any one length that differ, but in at most three symbols less than 1023 apart, never have
      the same checksum state. */
  lemma ThreeErrorsDetected(chk: bv32, us: seq<bv32>, vs: seq<bv32>, p: nat, q: nat, r: nat)
    requires |us| == |vs| && Symbols(us) && Symbols(vs) && us != vs
    requires p < q < r < |us| && r - p < 1023 && DifferAtMostAt(us, vs, p, q, r)
    ensures Run(chk, us) != Run(chk, vs)
  {
    hide Run, Xor, XorAll, Sparse, Symbols, DifferOnlyIn;
    var k, n := r - p + 1, |us| - r - 1;
    var window := XorAll(us[p..p + k], vs[p..p + k]);
    SparseDifference(us, vs, p, q, r);
    DifferenceShape(us, vs, p, k);
    WindowNonzero(us, vs, p, k);
    SparseSeen(window, q - p);
    RunBound(0, window);
    SameBehind(chk, us, vs, window, p, n);
  }

  lemma SameBehind(chk: bv32, us: seq<bv32>, vs: seq<bv32>, window: seq<bv32>, p: nat, n: nat)
    requires |us| == |vs| && XorAll(us, vs) == Zeros(p) + window + Zeros(n) && 0 != Run(0, window) < STATE_LIMIT
    ensures Run(chk, us) != Run(chk, vs)
  {
    hide Run, Xor, XorAll;
    RunXor(chk, chk, us, vs);
    XorUnit(chk);
    RunConcat(0, Zeros(p) + window, Zeros(n));
    RunConcat(0, Zeros(p), window);
    ZeroRunFromZero(p);
    ZeroRunInjective(Run(0, window), n);
    XorUnit(Run(chk, us));
  }
}
