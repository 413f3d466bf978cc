/** GF(1024), the field in which the generator polynomial of BIP-173 has its roots: pairs a + b zeta over
GF(32), packed as 32 b + a, with zeta^2 = 9 zeta + 23. Multiplication by an element is a matrix over
GF(2), given by its ten columns: what it makes of each bit. */
module Field1024 {
  import opened Bits
  import opened Polymod

  datatype Matrix = Matrix(c0: bv32, c1: bv32, c2: bv32, c3: bv32, c4: bv32, c5: bv32, c6: bv32, c7: bv32, c8: bv32, c9: bv32)
  {
    function Column(i: nat): bv32
      requires i < 10
    {
      if i == 0 then c0 else if i == 1 then c1 else if i == 2 then c2 else if i == 3 then c3 else if i == 4 then c4
      else if i == 5 then c5 else if i == 6 then c6 else if i == 7 then c7 else if i == 8 then c8 else c9
    }
  }

  predicate Element(z: bv32) { z < 1024 }

  predicate Elements(a: Matrix) { forall i: nat :: i < 10 ==> Element(a.Column(i)) }

  function Mask(i: nat): bv32
    requires i < 10
  {
    if i == 0 then 1 else if i == 1 then 2 else if i == 2 then 4 else if i == 3 then 8 else if i == 4 then 16
    else if i == 5 then 32 else if i == 6 then 64 else if i == 7 then 128 else if i == 8 then 256 else 512
  }

  predicate Bit(z: bv32, mask: bv32) { z & mask == mask }

  function Picked(z: bv32, mask: bv32, column: bv32): bv32 { if Bit(z, mask) then column else 0 }

  function Added(sum: bv32, z: bv32, mask: bv32, column: bv32): bv32 { if Bit(z, mask) then Xor(sum, column) else sum }

  lemma AddedPicked(sum: bv32, z: bv32, mask: bv32, column: bv32)
    ensures Added(sum, z, mask, column) == Xor(sum, Picked(z, mask, column))
  {
    hide Xor, Bit;
    XorUnit(sum);
  }

  /** The sum of the first n columns that z selects. */
  function Sum(z: bv32, a: Matrix, n: nat): bv32
    requires n <= 10
  {
    if n == 0 then 0 else Xor(Sum(z, a, n - 1), Picked(z, Mask(n - 1), a.Column(n - 1)))
  }

  function Apply(a: Matrix, z: bv32): bv32 { Sum(z, a, 10) }

  // ---- matrices are linear maps ----

  lemma BitXor(x: bv32, y: bv32, i: nat)
    requires i < 10
    ensures Bit(Xor(x, y), Mask(i)) == (Bit(x, Mask(i)) != Bit(y, Mask(i)))
  {
    if i == 0 {} else if i == 1 {} else if i == 2 {} else if i == 3 {} else if i == 4 {} else if i == 5 {}
    else if i == 6 {} else if i == 7 {} else if i == 8 {} else {}
  }

  lemma NoBits(i: nat)
    requires i < 10
    ensures !Bit(0, Mask(i))
  {}

  lemma {:induction false} SumXor(a: Matrix, x: bv32, y: bv32, n: nat)
    requires n <= 10
    ensures Sum(Xor(x, y), a, n) == Xor(Sum(x, a, n), Sum(y, a, n))
  {
    hide Xor, Bit;
    if n == 0 {
      XorUnit(0);
    } else {
      SumXor(a, x, y, n - 1);
      BitXor(x, y, n - 1);
      XorUnit(a.Column(n - 1));
      XorUnit(0);
      XorSwap(Sum(x, a, n - 1), Sum(y, a, n - 1), Picked(x, Mask(n - 1), a.Column(n - 1)), Picked(y, Mask(n - 1), a.Column(n - 1)));
    }
  }

  lemma ApplyXor(a: Matrix, x: bv32, y: bv32)
    ensures Apply(a, Xor(x, y)) == Xor(Apply(a, x), Apply(a, y))
  {
    SumXor(a, x, y, 10);
  }

  lemma {:induction false} SumNothing(a: Matrix, n: nat)
    requires n <= 10
    ensures Sum(0, a, n) == 0
  {
    hide Xor, Bit;
    if n > 0 {
      SumNothing(a, n - 1);
      NoBits(n - 1);
      XorUnit(0);
    }
  }

  lemma ElementXor(x: bv32, y: bv32)
    requires Element(x) && Element(y)
    ensures Element(Xor(x, y))
  {}

  lemma {:induction false} SumElement(z: bv32, a: Matrix, n: nat)
    requires n <= 10 && Elements(a)
    ensures Element(Sum(z, a, n))
  {
    hide Xor, Bit;
    if n > 0 {
      SumElement(z, a, n - 1);
      assert Element(a.Column(n - 1));
      ElementXor(Sum(z, a, n - 1), Picked(z, Mask(n - 1), a.Column(n - 1)));
    }
  }

  lemma ApplyElement(a: Matrix, z: bv32)
    requires Elements(a)
    ensures Element(Apply(a, z))
  {
    SumElement(z, a, 10);
  }

  /** The sum written out, for matrices and arguments that are given as numbers. */
  function Spelled(z: bv32, a: Matrix): bv32 {
    var sum := Added(Added(Added(Added(Added(0, z, 1, a.c0), z, 2, a.c1), z, 4, a.c2), z, 8, a.c3), z, 16, a.c4);
    Added(Added(Added(Added(Added(sum, z, 32, a.c5), z, 64, a.c6), z, 128, a.c7), z, 256, a.c8), z, 512, a.c9)
  }

  lemma SumNext(a: Matrix, z: bv32, n: nat)
    requires 0 < n <= 10
    ensures Sum(z, a, n) == Added(Sum(z, a, n - 1), z, Mask(n - 1), a.Column(n - 1))
  {
    hide Added, Picked, Xor;
    AddedPicked(Sum(z, a, n - 1), z, Mask(n - 1), a.Column(n - 1));
  }

  lemma SumSpelled(a: Matrix, z: bv32)
    ensures Apply(a, z) == Spelled(z, a)
  {
    hide Added, Picked, Xor, Sum;
    assert Sum(z, a, 0) == 0 by { NoSum(a, z); }
    SumNext(a, z, 1);
    SumNext(a, z, 2);
    SumNext(a, z, 3);
    SumNext(a, z, 4);
    SumNext(a, z, 5);
    SumNext(a, z, 6);
    SumNext(a, z, 7);
    SumNext(a, z, 8);
    SumNext(a, z, 9);
    SumNext(a, z, 10);
  }

  lemma NoSum(a: Matrix, z: bv32)
    ensures Sum(z, a, 0) == 0
  {}

  /** The columns of c are the columns of b, multiplied by a. */
  predicate Maps(a: Matrix, b: Matrix, c: Matrix) {
    && Spelled(b.c0, a) == c.c0
    && Spelled(b.c1, a) == c.c1
    && Spelled(b.c2, a) == c.c2
    && Spelled(b.c3, a) == c.c3
    && Spelled(b.c4, a) == c.c4
    && Spelled(b.c5, a) == c.c5
    && Spelled(b.c6, a) == c.c6
    && Spelled(b.c7, a) == c.c7
    && Spelled(b.c8, a) == c.c8
    && Spelled(b.c9, a) == c.c9
  }

  lemma MapsColumn(a: Matrix, b: Matrix, c: Matrix, i: nat)
    requires Maps(a, b, c) && i < 10
    ensures Apply(a, b.Column(i)) == c.Column(i)
  {
    hide Spelled, Apply;
    SumSpelled(a, b.Column(i));
  }

  lemma {:induction false} SumMapped(a: Matrix, b: Matrix, c: Matrix, z: bv32, n: nat)
    requires n <= 10 && Maps(a, b, c)
    ensures Apply(a, Sum(z, b, n)) == Sum(z, c, n)
  {
    hide Xor, Bit, Apply, Maps, Matrix.Column;
    ApplyNothing(a);
    if n > 0 {
      SumMapped(a, b, c, z, n - 1);
      ApplyXor(a, Sum(z, b, n - 1), Picked(z, Mask(n - 1), b.Column(n - 1)));
      MapsColumn(a, b, c, n - 1);
    }
  }

  lemma ApplyNothing(a: Matrix)
    ensures Apply(a, 0) == 0
  {
    SumNothing(a, 10);
  }

  lemma Composed(a: Matrix, b: Matrix, c: Matrix, z: bv32)
    requires Maps(a, b, c)
    ensures Apply(a, Apply(b, z)) == Apply(c, z)
  {
    SumMapped(a, b, c, z, 10);
  }

  const ONE: Matrix := Matrix(1, 2, 4, 8, 16, 32, 64, 128, 256, 512)

  lemma BitUp1(z: bv32)
    ensures Added(z & 0, z, 1, 1) == z & 1
  {}

  lemma BitUp2(z: bv32)
    ensures Added(z & 1, z, 2, 2) == z & 3
  {}

  lemma BitUp3(z: bv32)
    ensures Added(z & 3, z, 4, 4) == z & 7
  {}

  lemma BitUp4(z: bv32)
    ensures Added(z & 7, z, 8, 8) == z & 15
  {}

  lemma BitUp5(z: bv32)
    ensures Added(z & 15, z, 16, 16) == z & 31
  {}

  lemma BitUp6(z: bv32)
    ensures Added(z & 31, z, 32, 32) == z & 63
  {}

  lemma BitUp7(z: bv32)
    ensures Added(z & 63, z, 64, 64) == z & 127
  {}

  lemma BitUp8(z: bv32)
    ensures Added(z & 127, z, 128, 128) == z & 255
  {}

  lemma BitUp9(z: bv32)
    ensures Added(z & 255, z, 256, 256) == z & 511
  {}

  lemma BitUp10(z: bv32)
    ensures Added(z & 511, z, 512, 512) == z & 1023
  {}

  lemma AllBits(z: bv32)
    requires Element(z)
    ensures z & 0 == 0 && z & 1023 == z
  {}

  lemma ApplyOne(z: bv32)
    requires Element(z)
    ensures Apply(ONE, z) == z
  {
    hide Added, Element, Apply;
    SumSpelled(ONE, z);
    AllBits(z);
    BitUp1(z);
    BitUp2(z);
    BitUp3(z);
    BitUp4(z);
    BitUp5(z);
    BitUp6(z);
    BitUp7(z);
    BitUp8(z);
    BitUp9(z);
    BitUp10(z);
  }

  // ---- zeta ----

  /** Zn multiplies by zeta^n. */
  const Z1: Matrix := Matrix(0x20, 0x40, 0x80, 0x100, 0x200, 0x137, 0x247, 0x1ae, 0x35c, 0x3b1)
  const Z2: Matrix := Matrix(0x137, 0x247, 0x1ae, 0x35c, 0x3b1, 0x8b, 0x116, 0x205, 0x12a, 0x254)
  const Z4: Matrix := Matrix(0xce, 0x19c, 0x311, 0x32b, 0x376, 0x229, 0x172, 0x2cd, 0xba, 0x15d)
  const Z8: Matrix := Matrix(0x219, 0x13b, 0x25f, 0x1b7, 0x347, 0x91, 0x10b, 0x216, 0x125, 0x24a)
  const Z16: Matrix := Matrix(0x2a3, 0x66, 0xcc, 0x198, 0x319, 0x348, 0x3b0, 0x269, 0x1f2, 0x3cd)
  const Z32: Matrix := Matrix(0x29, 0x52, 0x8d, 0x11a, 0x21d, 0x17, 0x7, 0xe, 0x1c, 0x11)
  const Z64: Matrix := Matrix(0x124, 0x248, 0x1b0, 0x349, 0x3b2, 0x2eb, 0xf6, 0x1c5, 0x38a, 0x234)
  const Z128: Matrix := Matrix(0xd1, 0x18b, 0x316, 0x325, 0x36a, 0x1c9, 0x392, 0x22d, 0x17a, 0x2dd)
  const Z256: Matrix := Matrix(0x204, 0x128, 0x250, 0x1a9, 0x352, 0x331, 0x36b, 0x3f6, 0x2e5, 0xea)
  const Z512: Matrix := Matrix(0x2ba, 0x7d, 0xd3, 0x18f, 0x31e, 0x68, 0xd0, 0x189, 0x312, 0x32d)

  lemma Square2()
    ensures Maps(Z1, Z1, Z2)
  {}

  lemma Square4()
    ensures Maps(Z2, Z2, Z4)
  {}

  lemma Square8()
    ensures Maps(Z4, Z4, Z8)
  {}

  lemma Square16()
    ensures Maps(Z8, Z8, Z16)
  {}

  lemma Square32()
    ensures Maps(Z16, Z16, Z32)
  {}

  lemma Square64()
    ensures Maps(Z32, Z32, Z64)
  {}

  lemma Square128()
    ensures Maps(Z64, Z64, Z128)
  {}

  lemma Square256()
    ensures Maps(Z128, Z128, Z256)
  {}

  lemma Square512()
    ensures Maps(Z256, Z256, Z512)
  {}

  /** zeta^1024 is zeta: the tenth squaring closes the circle. */
  lemma Square1024()
    ensures Maps(Z512, Z512, Z1)
  {}

  lemma ZetaElements()
    ensures Elements(Z1)
  {}

  /** zeta^n times z. */
  function Zeta(n: nat, z: bv32): bv32 {
    if n == 0 then z else Apply(Z1, Zeta(n - 1, z))
  }

  ghost predicate IsPower(n: nat, a: Matrix) { forall z :: Zeta(n, z) == Apply(a, z) }

  lemma PowerOne()
    ensures IsPower(1, Z1)
  {}

  lemma PowerProduct(m: nat, a: Matrix, n: nat, b: Matrix, c: Matrix)
    requires IsPower(m, a) && IsPower(n, b) && Maps(a, b, c)
    ensures IsPower(m + n, c)
  {
    hide Zeta, Apply, Maps;
    forall z ensures Zeta(m + n, z) == Apply(c, z) {
      ZetaAdd(m, n, z);
      Composed(a, b, c, z);
    }
  }

  lemma {:induction false} ZetaAdd(m: nat, n: nat, z: bv32)
    ensures Zeta(m + n, z) == Zeta(m, Zeta(n, z))
  {
    hide Apply;
    if m > 0 {
      ZetaAdd(m - 1, n, z);
    }
  }

  lemma {:induction false} ZetaXor(n: nat, x: bv32, y: bv32)
    ensures Zeta(n, Xor(x, y)) == Xor(Zeta(n, x), Zeta(n, y))
  {
    hide Apply, Xor;
    if n > 0 {
      ZetaXor(n - 1, x, y);
      ApplyXor(Z1, Zeta(n - 1, x), Zeta(n - 1, y));
    }
  }

  lemma {:induction false} ZetaElement(n: nat, z: bv32)
    requires Element(z)
    ensures Element(Zeta(n, z))
  {
    hide Apply, Element, Elements;
    if n > 0 {
      ZetaElements();
      ApplyElement(Z1, Zeta(n - 1, z));
    }
  }

  lemma PowersOfTwo()
    ensures IsPower(1, Z1) && IsPower(4, Z4) && IsPower(8, Z8) && IsPower(16, Z16) && IsPower(32, Z32)
    ensures IsPower(64, Z64) && IsPower(256, Z256) && IsPower(1024, Z1)
  {
    hide IsPower, Maps;
    PowerOne();
    Square2();
    PowerProduct(1, Z1, 1, Z1, Z2);
    Square4();
    PowerProduct(2, Z2, 2, Z2, Z4);
    Square8();
    PowerProduct(4, Z4, 4, Z4, Z8);
    Square16();
    PowerProduct(8, Z8, 8, Z8, Z16);
    Square32();
    PowerProduct(16, Z16, 16, Z16, Z32);
    Square64();
    PowerProduct(32, Z32, 32, Z32, Z64);
    Square128();
    PowerProduct(64, Z64, 64, Z64, Z128);
    Square256();
    PowerProduct(128, Z128, 128, Z128, Z256);
    Square512();
    PowerProduct(256, Z256, 256, Z256, Z512);
    Square1024();
    PowerProduct(512, Z512, 512, Z512, Z1);
  }

  /** So multiplying by zeta can be undone. */
  lemma ZetaInjective(n: nat, x: bv32, y: bv32)
    requires Element(x) && Element(y) && Zeta(n, x) == Zeta(n, y)
    ensures x == y
    decreases n
  {
    hide Apply, Element;
    if n > 0 {
      ZetaElement(n - 1, x);
      ZetaElement(n - 1, y);
      OneInjective(Zeta(n - 1, x), Zeta(n - 1, y));
      ZetaInjective(n - 1, x, y);
    }
  }

  lemma OneInjective(x: bv32, y: bv32)
    requires Element(x) && Element(y) && Apply(Z1, x) == Apply(Z1, y)
    ensures x == y
  {
    hide Apply, Xor, Element;
    ElementXor(x, y);
    ApplyXor(Z1, x, y);
    XorUnit(Apply(Z1, x));
    NoKernel(Xor(x, y));
    XorCancel(x, y);
  }

  const UNZETA: Matrix := Matrix(0x266, 0x1ec, 0x3d8, 0x2b9, 0x7b, 0x1, 0x2, 0x4, 0x8, 0x10)

  lemma UndoneZeta()
    ensures Maps(UNZETA, Z1, ONE)
  {}

  lemma NoKernel(z: bv32)
    requires Element(z) && Apply(Z1, z) == 0
    ensures z == 0
  {
    hide Apply, Maps;
    UndoneZeta();
    Composed(UNZETA, Z1, ONE, z);
    ApplyNothing(UNZETA);
    ApplyOne(z);
  }

  lemma Period(z: bv32)
    requires Element(z)
    ensures Zeta(1023, z) == z
  {
    hide Zeta, Apply, Element, IsPower;
    PowersOfTwo();
    PowerAt(1024, Z1, z);
    PowerAt(1, Z1, z);
    ZetaAdd(1, 1023, z);
    ZetaElement(1023, z);
    ZetaInjective(1, Zeta(1023, z), z);
  }

  lemma PowerAt(n: nat, a: Matrix, z: bv32)
    requires IsPower(n, a)
    ensures Zeta(n, z) == Apply(a, z)
  {}

  // ---- no power of zeta below 1023 is one ----

  const Z5: Matrix := Matrix(0x229, 0x172, 0x2cd, 0xba, 0x15d, 0x3a6, 0x26c, 0x1f8, 0x3d9, 0x2bb)
  const Z21: Matrix := Matrix(0x3be, 0x275, 0x1e3, 0x3c6, 0x2ac, 0x3b4, 0x261, 0x1e2, 0x3c4, 0x2a8)
  const Z85: Matrix := Matrix(0x193, 0x30f, 0x33e, 0x375, 0x3e3, 0x92, 0x10d, 0x21a, 0x13d, 0x253)
  const Z341: Matrix := Matrix(0x16d, 0x2da, 0xbd, 0x153, 0x28f, 0x18c, 0x318, 0x339, 0x37b, 0x3ff)
  const Z13: Matrix := Matrix(0x175, 0x2c3, 0xa6, 0x14c, 0x298, 0x28c, 0x38, 0x59, 0x9b, 0x11f)
  const Z29: Matrix := Matrix(0x7c, 0xd1, 0x18b, 0x316, 0x325, 0xf0, 0x1c9, 0x392, 0x22d, 0x17a)
  const Z93: Matrix := Matrix(0x356, 0x3a5, 0x26a, 0x1f4, 0x3c1, 0x6a, 0xd4, 0x181, 0x302, 0x324)
  const Z33: Matrix := Matrix(0x17, 0x7, 0xe, 0x1c, 0x11, 0x2e0, 0xe0, 0x1c0, 0x380, 0x220)

  lemma Product5()
    ensures Maps(Z4, Z1, Z5)
  {}

  lemma Product21()
    ensures Maps(Z16, Z5, Z21)
  {}

  lemma Product85()
    ensures Maps(Z64, Z21, Z85)
  {}

  lemma Product341()
    ensures Maps(Z256, Z85, Z341)
  {}

  lemma Product13()
    ensures Maps(Z8, Z5, Z13)
  {}

  lemma Product29()
    ensures Maps(Z16, Z13, Z29)
  {}

  lemma Product93()
    ensures Maps(Z64, Z29, Z93)
  {}

  lemma Product33()
    ensures Maps(Z32, Z1, Z33)
  {}

  lemma PowersToCheck()
    ensures IsPower(341, Z341) && IsPower(93, Z93) && IsPower(33, Z33)
  {
    hide IsPower, Maps;
    PowersOfTwo();
    Product5();
    PowerProduct(4, Z4, 1, Z1, Z5);
    Product21();
    PowerProduct(16, Z16, 5, Z5, Z21);
    Product85();
    PowerProduct(64, Z64, 21, Z21, Z85);
    Product341();
    PowerProduct(256, Z256, 85, Z85, Z341);
    Product13();
    PowerProduct(8, Z8, 5, Z5, Z13);
    Product29();
    PowerProduct(16, Z16, 13, Z13, Z29);
    Product93();
    PowerProduct(64, Z64, 29, Z29, Z93);
    Product33();
    PowerProduct(32, Z32, 1, Z1, Z33);
  }

  /** BACKn undoes the multiplication by zeta^n + 1, which therefore has no kernel. */
  const BACK33: Matrix := Matrix(0x10, 0x9, 0x12, 0xd, 0x1a, 0x200, 0x120, 0x240, 0x1a0, 0x340)
  const BACK93: Matrix := Matrix(0x17b, 0x2df, 0xb7, 0x147, 0x28e, 0x34c, 0x3b8, 0x279, 0x1fb, 0x3df)
  const BACK341: Matrix := Matrix(0x16d, 0x2da, 0xbd, 0x153, 0x28f, 0x18c, 0x318, 0x339, 0x37b, 0x3ff)

  function PlusOne(a: Matrix): Matrix {
    Matrix(Xor(a.c0, 1), Xor(a.c1, 2), Xor(a.c2, 4), Xor(a.c3, 8), Xor(a.c4, 16),
           Xor(a.c5, 32), Xor(a.c6, 64), Xor(a.c7, 128), Xor(a.c8, 256), Xor(a.c9, 512))
  }

  lemma PlusOneColumn(a: Matrix, i: nat)
    requires i < 10
    ensures PlusOne(a).Column(i) == Xor(a.Column(i), ONE.Column(i))
  {
    hide Xor;
  }


  lemma Undone33()
    ensures Maps(BACK33, PlusOne(Z33), ONE)
  {}

  lemma Undone93()
    ensures Maps(BACK93, PlusOne(Z93), ONE)
  {}

  lemma Undone341()
    ensures Maps(BACK341, PlusOne(Z341), ONE)
  {}

  lemma {:induction false} SumPlusOne(a: Matrix, z: bv32, n: nat)
    requires n <= 10
    ensures Sum(z, PlusOne(a), n) == Xor(Sum(z, a, n), Sum(z, ONE, n))
  {
    hide Xor, Bit, PlusOne, Matrix.Column;
    if n == 0 {
      XorUnit(0);
    } else {
      SumPlusOne(a, z, n - 1);
      PlusOneColumn(a, n - 1);
      XorUnit(0);
      XorSwap(Sum(z, a, n - 1), Sum(z, ONE, n - 1), Picked(z, Mask(n - 1), a.Column(n - 1)), Picked(z, Mask(n - 1), ONE.Column(n - 1)));
    }
  }

  lemma NotFixed(n: nat, a: Matrix, back: Matrix, z: bv32)
    requires IsPower(n, a) && Maps(back, PlusOne(a), ONE) && Element(z) && Fixes(n, z)
    ensures z == 0
  {
    hide Sum, Maps, Zeta, Xor, PlusOne;
    PowerAt(n, a, z);
    SumPlusOne(a, z, 10);
    ApplyOne(z);
    XorUnit(z);
    ApplyNothing(back);
    Composed(back, PlusOne(a), ONE, z);
  }

  predicate Fixes(n: nat, z: bv32) { Zeta(n, z) == z }

  lemma FixesDifference(m: nat, n: nat, z: bv32)
    requires Element(z) && n <= m && Fixes(m, z) && Fixes(n, z)
    ensures Fixes(m - n, z)
  {
    hide Zeta, Element;
    ZetaAdd(n, m - n, z);
    ZetaElement(m - n, z);
    ZetaInjective(n, Zeta(m - n, z), z);
  }

  lemma {:induction false} FixesMultiple(n: nat, k: nat, z: bv32)
    requires Fixes(n, z)
    ensures Fixes(n * k, z)
  {
    hide Apply;
    if k > 0 {
      FixesMultiple(n, k - 1, z);
      assert n * k == n + n * (k - 1);
      ZetaAdd(n, n * (k - 1), z);
    } else {
      assert n * 0 == 0;
    }
  }

  /** Euclid: two exponents that fix z have a common divisor that does. */
  lemma {:induction false} CommonDivisor(m: nat, n: nat, z: bv32) returns (g: nat, s: nat, t: nat)
    requires Element(z) && m > 0 && n > 0 && Fixes(m, z) && Fixes(n, z)
    ensures g > 0 && Fixes(g, z) && m == g * s && n == g * t
    decreases m + n
  {
    hide Fixes, Element;
    if m == n {
      g, s, t := m, 1, 1;
    } else if m > n {
      FixesDifference(m, n, z);
      g, s, t := CommonDivisor(m - n, n, z);
      assert m == g * s + g * t == g * (s + t);
      s := s + t;
    } else {
      FixesDifference(n, m, z);
      g, s, t := CommonDivisor(m, n - m, z);
      assert n == g * t + g * s == g * (t + s);
      t := t + s;
    }
  }

  /** 1023 is 3 * 11 * 31: a proper divisor divides 341, 93 or 33. */
  lemma ProperDivisor(g: nat, s: nat) returns (k: nat)
    requires g * s == 1023 && s > 1
    ensures g * k == 341 || g * k == 93 || g * k == 33
  {
    SomePrime(g, s);
    if s % 3 == 0 {
      k := s / 3;
      Quotient(g, s, 3, k, 341);
    } else if s % 11 == 0 {
      k := s / 11;
      Quotient(g, s, 11, k, 93);
    } else {
      k := s / 31;
      Quotient(g, s, 31, k, 33);
    }
  }

  lemma Quotient(g: nat, s: nat, p: nat, k: nat, q: nat)
    requires g * s == p * q && s == p * k && p > 0
    ensures g * k == q
  {
    assert p * (g * k) == g * s;
    DivModUnique(p * (g * k), p, g * k, 0);
    DivModUnique(p * q, p, q, 0);
  }

  lemma SomePrime(g: nat, s: nat)
    requires g * s == 1023 && s > 1
    ensures s % 3 == 0 || s % 11 == 0 || s % 31 == 0
  {
    BothLarge(g, s);
    if s <= 31 {
      SmallDivisor(s, g);
    } else {
      SmallDivisor(g, s);
    }
  }

  lemma BothLarge(g: nat, s: nat)
    ensures g >= 32 && s >= 32 ==> g * s >= 1024
  {
    if g >= 32 && s >= 32 {
      assert g * s >= 32 * s;
    }
  }

  lemma SmallDivisor(a: nat, b: nat)
    requires a * b == 1023 && a <= 31
    ensures (a == 1 && b == 1023) || (a == 3 && b == 341) || (a == 11 && b == 93) || (a == 31 && b == 33)
  {}

  /** zeta has order 1023: no smaller power of it leaves a nonzero element alone. */
  lemma Order(n: nat, z: bv32)
    requires Element(z) && 0 < n < 1023 && Fixes(n, z)
    ensures z == 0
  {
    hide Element, Fixes, IsPower, Maps;
    assert Fixes(1023, z) by { PeriodFixes(z); }
    var g, s, t := CommonDivisor(1023, n, z);
    Whole(g, s, t, n);
    var k := ProperDivisor(g, s);
    FixesMultiple(g, k, z);
    PowersToCheck();
    if g * k == 341 {
      Undone341();
      NotFixed(341, Z341, BACK341, z);
    } else if g * k == 93 {
      Undone93();
      NotFixed(93, Z93, BACK93, z);
    } else {
      Undone33();
      NotFixed(33, Z33, BACK33, z);
    }
  }

  lemma PeriodFixes(z: bv32)
    requires Element(z)
    ensures Fixes(1023, z)
  {
    Period(z);
  }

  lemma Whole(g: nat, s: nat, t: nat, n: nat)
    requires 1023 == g * s && n == g * t && 0 < n < 1023
    ensures s > 1
  {
    if s == 1 {
      TooFew(t);
    }
  }

  lemma TooFew(t: nat)
    ensures 1023 * t == 0 || 1023 * t >= 1023
  {}
}
