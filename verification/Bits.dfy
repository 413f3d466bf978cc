/** Numbers as big-endian bit strings: the reference for regrouping digits of one power-of-two base
into digits of another. */
module Bits {

  /** The source's `byte`. */
  type byte = n: nat | n < 256

  function Pow2(n: nat): (p: nat)
    ensures p >= 1
  {
    if n == 0 then 1 else 2 * Pow2(n - 1)
  }

  /** The `n` low bits of `x`, most significant first. */
  function Low(x: nat, n: nat): (bits: seq<bool>)
    ensures |bits| == n
  {
    if n == 0 then [] else Low(x / 2, n - 1) + [x % 2 == 1]
  }

  function Value(bits: seq<bool>): nat {
    if bits == [] then 0
    else 2 * Value(bits[..|bits| - 1]) + if bits[|bits| - 1] then 1 else 0
  }

  function Falses(n: nat): (bits: seq<bool>)
    ensures |bits| == n
  {
    seq(n, i => false)
  }

  lemma {:induction false} Pow2Add(a: nat, b: nat)
    ensures Pow2(a + b) == Pow2(a) * Pow2(b)
  {
    if b > 0 {
      Pow2Add(a, b - 1);
    }
  }

  lemma {:induction false} ValueOfLow(x: nat, n: nat)
    ensures Value(Low(x, n)) == x % Pow2(n)
  {
    if n > 0 {
      var bits := Low(x, n);
      assert bits[..n - 1] == Low(x / 2, n - 1);
      ValueOfLow(x / 2, n - 1);
      ModHalf(x, Pow2(n - 1));
    }
  }

  lemma ModHalf(x: nat, p: nat)
    requires p >= 1
    ensures x % (2 * p) == 2 * ((x / 2) % p) + x % 2
  {
    var q, r := (x / 2) / p, (x / 2) % p;
    assert x == 2 * (q * p + r) + x % 2;
    assert x == q * (2 * p) + (2 * r + x % 2) by { assert 2 * (q * p) == q * (2 * p); }
    DivModUnique(x, 2 * p, q, 2 * r + x % 2);
  }

  lemma DivModUnique(x: nat, m: nat, q: nat, r: nat)
    requires m > 0 && r < m && x == q * m + r
    ensures x / m == q && x % m == r
  {
    assert x == x / m * m + x % m;
    assert (q - x / m) * m == x % m - r;
    SmallMultiple(q - x / m, m);
  }

  lemma SmallMultiple(k: int, m: int)
    requires m > 0 && -m < k * m < m
    ensures k == 0
  {
    assert k >= 1 ==> k * m >= m;
    assert k <= -1 ==> k * m <= -m;
  }

  lemma {:induction false} LowOfValue(bits: seq<bool>)
    ensures Value(bits) < Pow2(|bits|)
    ensures Low(Value(bits), |bits|) == bits
  {
    if bits != [] {
      var init := bits[..|bits| - 1];
      LowOfValue(init);
      assert Value(bits) / 2 == Value(init);
      assert bits == init + [bits[|bits| - 1]];
    }
  }

  lemma {:induction false} ValueConcat(a: seq<bool>, b: seq<bool>)
    ensures Value(a + b) == Value(a) * Pow2(|b|) + Value(b)
    decreases |b|
  {
    hide Value;
    if b == [] {
      assert a + b == a && Value(b) == 0 by { ValueEmpty(); }
    } else {
      var init, last := b[..|b| - 1], b[|b| - 1];
      ValueConcat(a, init);
      assert a + b == (a + init) + [last] && b == init + [last];
      ValueAppend(a + init, last);
      ValueAppend(init, last);
      DoubleProduct(Value(a), Pow2(|init|));
    }
  }

  lemma ValueEmpty()
    ensures Value([]) == 0
  {}

  lemma ValueAppend(bits: seq<bool>, b: bool)
    ensures Value(bits + [b]) == 2 * Value(bits) + if b then 1 else 0
  {
    assert (bits + [b])[..|bits|] == bits;
  }

  lemma DoubleProduct(x: nat, p: nat)
    ensures 2 * (x * p) == x * (2 * p)
  {}

  lemma {:induction false} ValueOfFalses(n: nat)
    ensures Value(Falses(n)) == 0
  {
    if n > 0 {
      assert Falses(n)[..n - 1] == Falses(n - 1);
      ValueOfFalses(n - 1);
    }
  }

  /** Appending a digit: shift left by its width, then add it. */
  lemma {:induction false} LowAppend(x: nat, n: nat, d: nat, width: nat)
    requires d < Pow2(width)
    ensures Low(x * Pow2(width) + d, n + width) == Low(x, n) + Low(d, width)
  {
    if width == 0 {
      assert Low(x, n) + [] == Low(x, n);
    } else {
      var y := x * Pow2(width) + d;
      var p := Pow2(width - 1);
      assert x * Pow2(width) == 2 * (x * p);
      assert y / 2 == x * p + d / 2;
      assert y % 2 == d % 2;
      LowAppend(x, n, d / 2, width - 1);
    }
  }

  function Shr(x: nat, n: nat): nat {
    DivNonNegative(x, Pow2(n));
    x / Pow2(n)
  }

  lemma DivNonNegative(x: nat, m: nat)
    requires m > 0
    ensures x / m >= 0
  {
    var q: int := x / m;
    MultipleSign(q, m);
  }

  lemma MultipleSign(k: int, m: int)
    requires m > 0
    ensures k <= -1 ==> k * m <= -m
  {
    if k <= -1 {
      assert k * m == -m + (k + 1) * m;
    }
  }

  lemma ShrHalf(x: nat, n: nat)
    requires n > 0
    ensures Shr(x / 2, n - 1) == Shr(x, n)
  {
    var p := Pow2(n - 1);
    DivDiv(x, p);
    assert Pow2(n) == 2 * p;
  }

  lemma ShrNone(x: nat)
    ensures Shr(x, 0) == x
  {}

  /** Splitting off the top `n - rest` of `n` bits: shift right by the rest. */
  lemma {:induction false} LowSplit(x: nat, n: nat, rest: nat)
    requires rest <= n
    ensures Low(x, n) == Low(Shr(x, rest), n - rest) + Low(x, rest)
  {
    hide Shr, Pow2;
    if rest > 0 {
      LowSplit(x / 2, n - 1, rest - 1);
      ShrHalf(x, rest);
      assert Low(x, n) == Low(x / 2, n - 1) + [x % 2 == 1];
    } else {
      ShrNone(x);
    }
  }

  lemma DivDiv(x: nat, p: nat)
    requires p >= 1
    ensures (x / 2) / p == x / (2 * p)
  {
    var q, r := (x / 2) / p, (x / 2) % p;
    assert x / 2 == q * p + r;
    assert x == 2 * (q * p + r) + x % 2;
    assert 2 * (q * p) == q * (2 * p);
    DivModUnique(x, 2 * p, q, 2 * r + x % 2);
  }

  /** Only the low bits matter: dropping a multiple of 2^m leaves the low n <= m bits alone. */
  lemma {:induction false} LowMod(x: nat, n: nat, m: nat)
    requires n <= m
    ensures Low(x % Pow2(m), n) == Low(x, n)
  {
    if n > 0 {
      ModHalf(x, Pow2(m - 1));
      LowMod(x / 2, n - 1, m - 1);
    }
  }
}
