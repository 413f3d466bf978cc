/** Regrouping digits between power-of-two bases (pkg/gpub/gpub.go, `convertBits`).

The reference is the bit string of the input, cut into groups: `Regroup`. The method keeps the
source's accumulator, whose shifts wrap at the machine word. */
module ConvertBits {
  import opened Bits

  predicate Digits(data: seq<byte>, width: nat) {
    forall i :: 0 <= i < |data| ==> data[i] < Pow2(width)
  }

  /** The bit string of a digit sequence, most significant digit first. */
  function Spread(data: seq<byte>, width: nat): seq<bool> {
    if data == [] then [] else Low(data[0], width) + Spread(data[1..], width)
  }

  /** Cuts a bit string into groups of `width` bits; a partial last group is either filled up with
      zero bits or thrown away. */
  function Group(bits: seq<bool>, width: nat, pad: bool): (out: seq<byte>)
    requires 1 <= width <= 8
    decreases |bits|
  {
    if |bits| >= width then [GroupValue(bits[..width])] + Group(bits[width..], width, pad)
    else if pad && |bits| > 0 then [GroupValue(bits + Falses(width - |bits|))]
    else []
  }

  function GroupValue(bits: seq<bool>): (d: byte)
    requires |bits| <= 8
    ensures d == Value(bits)
  {
    LowOfValue(bits);
    assert Pow2(|bits|) <= 256 by { Pow2Byte(|bits|); }
    Value(bits)
  }

  lemma Pow2Byte(n: nat)
    requires n <= 8
    ensures Pow2(n) <= 256
  {
    assert Pow2(8) == 256 by { assert Pow2(4) == 16; }
    if n < 8 { Pow2Add(n, 8 - n); assert Pow2(n) * 1 <= Pow2(n) * Pow2(8 - n); }
  }

  function Regroup(data: seq<byte>, fromBits: nat, toBits: nat, pad: bool): seq<byte>
    requires 1 <= toBits <= 8
  {
    Group(Spread(data, fromBits), toBits, pad)
  }

  // ---- the source's loop ----

  function Shl(x: nat, n: nat, wordBits: nat): nat { x * Pow2(n) % Pow2(wordBits) }

  /** `x >> shift & (1 << width - 1)` */
  function Field(x: nat, shift: nat, width: nat): (d: byte)
    requires width <= 8
    ensures d == Shr(x, shift) % Pow2(width)
  {
    Pow2Byte(width);
    Shr(x, shift) % Pow2(width)
  }

  /** The or of the shifted accumulator with the next digit is an addition: their bits are
      disjoint. `wordBits` is the width of the source's `uint`. */
  method Convert(data: seq<byte>, fromBits: nat, toBits: nat, pad: bool, wordBits: nat) returns (out: seq<byte>)
    requires 1 <= fromBits <= 8 && 1 <= toBits <= 8
    requires Digits(data, fromBits)
    requires wordBits == 32 || wordBits == 64
    ensures out == Regroup(data, fromBits, toBits, pad)
  {
    hide Progress, Regroup, Shl, Field;
    var acc: nat, bits: nat := 0, 0;
    out := [];
    ProgressStart(fromBits, toBits);
    for i := 0 to |data|
      invariant bits < toBits
      invariant Progress(out, acc, bits, data[..i], fromBits, toBits)
    {
      ProgressPush(out, acc, bits, data[..i], data[i], fromBits, toBits, wordBits);
      assert data[..i] + [data[i]] == data[..i + 1];
      acc := Shl(acc, fromBits, wordBits) + data[i];
      bits := bits + fromBits;
      while bits >= toBits
        invariant Progress(out, acc, bits, data[..i + 1], fromBits, toBits)
      {
        bits := bits - toBits;
        ProgressTake(out, acc, bits, data[..i + 1], fromBits, toBits);
        out := out + [Field(acc, bits, toBits)];
      }
    }
    assert data[..|data|] == data;
    ProgressEnd(out, acc, bits, data, fromBits, toBits, pad, wordBits);
    if pad && bits > 0 {
      out := out + [Field(Shl(acc, toBits - bits, wordBits), 0, toBits)];
    }
  }

  /** The digits written so far, followed by the `bits` pending low bits of the accumulator, are
      the bits read so far. */
  ghost predicate Progress(out: seq<byte>, acc: nat, bits: nat, read: seq<byte>, fromBits: nat, toBits: nat) {
    Digits(out, toBits) && Spread(out, toBits) + Low(acc, bits) == Spread(read, fromBits)
  }

  lemma ProgressStart(fromBits: nat, toBits: nat)
    ensures Progress([], 0, 0, [], fromBits, toBits)
  {}

  lemma ProgressPush(out: seq<byte>, acc: nat, bits: nat, read: seq<byte>, d: byte, fromBits: nat, toBits: nat, wordBits: nat)
    requires Progress(out, acc, bits, read, fromBits, toBits)
    requires bits + fromBits <= wordBits && d < Pow2(fromBits)
    ensures Progress(out, Shl(acc, fromBits, wordBits) + d, bits + fromBits, read + [d], fromBits, toBits)
  {
    hide Low, Spread, Pow2, Shl;
    Accumulate(acc, bits, d, fromBits, wordBits);
    SpreadAppend(read, d, fromBits);
  }

  lemma ProgressTake(out: seq<byte>, acc: nat, rest: nat, read: seq<byte>, fromBits: nat, toBits: nat)
    requires 1 <= toBits <= 8
    requires Progress(out, acc, rest + toBits, read, fromBits, toBits)
    ensures Progress(out + [Field(acc, rest, toBits)], acc, rest, read, fromBits, toBits)
  {
    hide Low, Spread, Pow2, Field;
    TakeField(acc, rest, toBits);
    SpreadAppend(out, Field(acc, rest, toBits), toBits);
  }

  lemma ProgressEnd(out: seq<byte>, acc: nat, bits: nat, data: seq<byte>, fromBits: nat, toBits: nat, pad: bool, wordBits: nat)
    requires bits < toBits <= 8 && toBits <= wordBits
    requires Progress(out, acc, bits, data, fromBits, toBits)
    ensures Regroup(data, fromBits, toBits, pad)
         == if pad && bits > 0 then out + [Field(Shl(acc, toBits - bits, wordBits), 0, toBits)] else out
  {
    hide Low, Spread, Pow2, Value, Field, Shl;
    var rest := Low(acc, bits);
    GroupSpread(out, rest, toBits, pad);
    if bits > 0 {
      PadField(acc, bits, toBits, wordBits);
    }
  }

  lemma Accumulate(acc: nat, bits: nat, d: byte, fromBits: nat, wordBits: nat)
    requires bits + fromBits <= wordBits && d < Pow2(fromBits)
    ensures Low(Shl(acc, fromBits, wordBits) + d, bits + fromBits) == Low(acc, bits) + Low(d, fromBits)
  {
    var p, m := Pow2(fromBits), Pow2(wordBits - fromBits);
    Pow2Add(wordBits - fromBits, fromBits);
    ModScale(acc, p, m);
    LowAppend(acc % m, bits, d, fromBits);
    LowMod(acc, bits, wordBits - fromBits);
  }

  lemma ModScale(x: nat, p: nat, m: nat)
    requires p > 0 && m > 0
    ensures m * p > 0
    ensures x * p % (m * p) == x % m * p
  {
    var q, r := x / m, x % m;
    assert x == q * m + r;
    assert x * p == q * (m * p) + r * p;
    assert r * p < m * p;
    DivModUnique(x * p, m * p, q, r * p);
  }

  lemma TakeField(acc: nat, rest: nat, width: nat)
    requires 1 <= width <= 8
    ensures Low(acc, rest + width) == Low(Field(acc, rest, width), width) + Low(acc, rest)
    ensures Field(acc, rest, width) < Pow2(width)
  {
    hide Pow2, Shr;
    LowSplit(acc, rest + width, rest);
    LowMod(Shr(acc, rest), width, width);
    ModBound(Shr(acc, rest), Pow2(width));
  }

  lemma ModBound(x: nat, m: nat)
    requires m >= 1
    ensures x % m < m
  {}

  lemma PadField(acc: nat, bits: nat, width: nat, wordBits: nat)
    requires 0 < bits < width <= 8 && width <= wordBits
    ensures Field(Shl(acc, width - bits, wordBits), 0, width) == Value(Low(acc, bits) + Falses(width - bits))
  {
    var k := width - bits;
    var shifted := Shl(acc, k, wordBits);
    assert Low(shifted, width) == Low(acc * Pow2(k), width) by { LowMod(acc * Pow2(k), width, wordBits); }
    LowAppend(acc, bits, 0, k);
    ValueOfFalses(k);
    LowOfValue(Falses(k));
    assert Low(shifted, width) == Low(acc, bits) + Falses(k);
    ValueOfLow(shifted, width);
    ShrNone(shifted);
  }

  // ---- spreading and grouping are inverse ----

  lemma {:induction false} SpreadConcat(a: seq<byte>, b: seq<byte>, width: nat)
    ensures Spread(a + b, width) == Spread(a, width) + Spread(b, width)
  {
    if a == [] {
      assert a + b == b;
    } else {
      assert (a + b)[1..] == a[1..] + b;
      SpreadConcat(a[1..], b, width);
    }
  }

  lemma SpreadAppend(a: seq<byte>, d: byte, width: nat)
    ensures Spread(a + [d], width) == Spread(a, width) + Low(d, width)
  {
    SpreadConcat(a, [d], width);
    assert [d][1..] == [];
    assert Spread([d], width) == Low(d, width) + [];
  }

  lemma {:induction false} GroupSpread(a: seq<byte>, rest: seq<bool>, width: nat, pad: bool)
    requires 1 <= width <= 8 && Digits(a, width)
    ensures Group(Spread(a, width) + rest, width, pad) == a + Group(rest, width, pad)
  {
    hide Low, Value, Pow2;
    if a == [] {
      assert Spread(a, width) + rest == rest;
    } else {
      var bits := Spread(a, width) + rest;
      var first := Low(a[0], width);
      assert bits == first + (Spread(a[1..], width) + rest);
      assert bits[..width] == first;
      assert bits[width..] == Spread(a[1..], width) + rest;
      ValueOfLow(a[0], width);
      DivModUnique(a[0], Pow2(width), 0, a[0]);
      GroupSpread(a[1..], rest, width, pad);
    }
  }

  /** The number of zero bits a padded grouping appends. */
  function Padding(bits: nat, width: nat): (k: nat)
    requires width >= 1
    ensures k < width
  {
    if bits % width == 0 then 0 else width - bits % width
  }

  lemma PaddingStep(bits: nat, width: nat)
    requires 1 <= width <= bits
    ensures Padding(bits - width, width) == Padding(bits, width)
  {
    DivModUnique(bits, width, (bits - width) / width + 1, (bits - width) % width);
  }

  lemma {:induction false} SpreadLength(data: seq<byte>, width: nat)
    ensures |Spread(data, width)| == |data| * width
  {
    hide Low;
    if data != [] {
      SpreadLength(data[1..], width);
      OneMore(|data|, width);
    } else {
      assert 0 * width == 0;
    }
  }

  lemma OneMore(n: nat, width: nat)
    requires n > 0
    ensures n * width == width + (n - 1) * width
  {}

  lemma {:induction false} SpreadGroup(bits: seq<bool>, width: nat)
    requires 1 <= width <= 8
    ensures var out := Group(bits, width, true);
            Digits(out, width) && Spread(out, width) == bits + Falses(Padding(|bits|, width))
    decreases |bits|
  {
    hide Low, Value, Pow2, Padding, Group, Spread, Digits;
    if |bits| >= width {
      var rest := bits[width..];
      SpreadGroup(rest, width);
      GroupNext(bits, width);
      PaddingStep(|bits|, width);
      assert bits[..width] + (rest + Falses(Padding(|bits|, width))) == bits + Falses(Padding(|bits|, width));
    } else {
      GroupShort(bits, width);
    }
  }

  /** A full group first. */
  lemma GroupNext(bits: seq<bool>, width: nat)
    requires 1 <= width <= 8 && |bits| >= width
    ensures var out, rest := Group(bits, width, true), Group(bits[width..], width, true);
            (Digits(rest, width) ==> Digits(out, width)) && Spread(out, width) == bits[..width] + Spread(rest, width)
  {
    hide Low, Value, Pow2;
    LowOfValue(bits[..width]);
    assert Group(bits, width, true)[1..] == Group(bits[width..], width, true);
  }

  lemma GroupShort(bits: seq<bool>, width: nat)
    requires 1 <= width <= 8 && |bits| < width
    ensures var out := Group(bits, width, true);
            Digits(out, width) && Spread(out, width) == bits + Falses(Padding(|bits|, width))
  {
    hide Low, Value, Pow2;
    var out := Group(bits, width, true);
    DivModUnique(|bits|, width, 0, |bits|);
    if |bits| > 0 {
      var full := bits + Falses(width - |bits|);
      LowOfValue(full);
      assert out == [GroupValue(full)] && out[1..] == [];
      assert full == full + [];
    } else {
      assert bits + Falses(0) == [];
    }
  }

  /** Base 2^fromBits to 2^toBits with padding, then back without: nothing is lost, for every
      input length. */
  lemma RegroupRoundTrip(data: seq<byte>, fromBits: nat, toBits: nat)
    requires 1 <= toBits <= fromBits <= 8 && Digits(data, fromBits)
    ensures Digits(Regroup(data, fromBits, toBits, true), toBits)
    ensures Regroup(Regroup(data, fromBits, toBits, true), toBits, fromBits, false) == data
  {
    var bits := Spread(data, fromBits);
    SpreadGroup(bits, toBits);
    GroupSpread(data, Falses(Padding(|bits|, toBits)), fromBits, false);
    assert data + [] == data;
  }

  /** The bits left over when cutting into wider groups without padding could be padding: fewer than one
      digit's worth, and all zero. */
  predicate PaddingOk(data: seq<byte>, narrow: nat, wide: nat)
    requires 1 <= wide
  {
    var bits := Spread(data, narrow);
    var k := |bits| % wide;
    k < narrow && bits[|bits| - k..] == Falses(k)
  }

  lemma {:induction false} SpreadCut(bits: seq<bool>, width: nat)
    requires 1 <= width <= 8
    ensures var out := Group(bits, width, false);
            Digits(out, width) && Spread(out, width) == bits[..|bits| - |bits| % width]
    decreases |bits|
  {
    hide Low, Value, Pow2;
    var out := Group(bits, width, false);
    if |bits| >= width {
      var rest := bits[width..];
      SpreadCut(rest, width);
      LowOfValue(bits[..width]);
      assert out[1..] == Group(rest, width, false);
      LeftOver(|bits|, width);
      assert bits[..|bits| - |bits| % width] == bits[..width] + rest[..|rest| - |rest| % width];
    } else {
      DivModUnique(|bits|, width, 0, |bits|);
    }
  }

  lemma LeftOver(bits: nat, width: nat)
    requires 1 <= width <= bits
    ensures (bits - width) % width == bits % width <= bits - width
  {
    DivModUnique(bits, width, (bits - width) / width + 1, (bits - width) % width);
    ModSmall(bits - width, width);
  }

  lemma ModSmall(x: nat, m: nat)
    requires m >= 1
    ensures x % m <= x
  {
    DivNonNegative(x, m);
    assert x == x / m * m + x % m;
    MultipleSign(x / m, m);
  }

  /** A digit sequence is determined by its bits. */
  lemma SpreadInjective(a: seq<byte>, b: seq<byte>, width: nat)
    requires 1 <= width <= 8 && Digits(a, width) && Digits(b, width) && Spread(a, width) == Spread(b, width)
    ensures a == b
  {
    GroupSpread(a, [], width, false);
    GroupSpread(b, [], width, false);
    assert a + [] == a && b + [] == b && Spread(a, width) + [] == Spread(a, width);
  }

  /** Exactly the sequences that the padded regrouping produces come back from the unpadded one: with
      leftover bits that could be padding. */
  lemma RegroupBack(data: seq<byte>, narrow: nat, wide: nat)
    requires 1 <= narrow <= wide <= 8 && Digits(data, narrow)
    ensures Digits(Regroup(data, narrow, wide, false), wide)
    ensures Regroup(Regroup(data, narrow, wide, false), wide, narrow, true) == data <==> PaddingOk(data, narrow, wide)
  {
    hide Low, Value, Pow2, Group, Digits, Padding;
    var bits := Spread(data, narrow);
    var out := Regroup(data, narrow, wide, false);
    var cut := bits[..|bits| - |bits| % wide];
    var back := Regroup(out, wide, narrow, true);
    SpreadCut(bits, wide);
    SpreadGroup(cut, narrow);
    SpreadLength(data, narrow);
    var pad := Padding(|cut|, narrow);
    assert Spread(back, narrow) == cut + Falses(pad);
    assert bits == cut + bits[|cut|..];
    PaddingIs(|cut|, |bits| % wide, narrow, |data|);
    if PaddingOk(data, narrow, wide) {
      SpreadInjective(back, data, narrow);
    }
    if back == data {
      assert |bits| == |cut| + pad;
      assert bits[|cut|..] == Falses(pad);
    }
  }

  /** Filling up to a whole number of digits takes the only short filling there is. */
  lemma PaddingIs(bits: nat, k: nat, width: nat, digits: nat)
    requires width >= 1 && bits + k == digits * width
    ensures k < width ==> Padding(bits, width) == k
  {
    if k < width {
      if k == 0 {
        DivModUnique(bits, width, digits, 0);
      } else {
        assert (digits - 1) * width + (width - k) == bits;
        MultipleSign(digits - 1, width);
        DivModUnique(bits, width, digits - 1, width - k);
      }
    }
  }

  /** The output has ceil(fromBits * n / toBits) digits and denotes the input's big-endian number,
      shifted left by the padding. */
  lemma RegroupValue(data: seq<byte>, fromBits: nat, toBits: nat)
    requires 1 <= fromBits <= 8 && 1 <= toBits <= 8 && Digits(data, fromBits)
    ensures var out := Regroup(data, fromBits, toBits, true);
            && |out| == (|data| * fromBits + toBits - 1) / toBits
            && |out| * toBits >= |data| * fromBits
            && BigEndian(out, toBits) == BigEndian(data, fromBits) * Pow2(|out| * toBits - |data| * fromBits)
  {
    hide Value, Group, Low, BigEndian, Padding;
    var bits := Spread(data, fromBits);
    var out := Regroup(data, fromBits, toBits, true);
    var k := Padding(|bits|, toBits);
    SpreadGroup(bits, toBits);
    SpreadLength(data, fromBits);
    SpreadLength(out, toBits);
    assert |out| * toBits == |bits| + k;
    CeilDiv(|bits|, toBits, |out|);
    SpreadValue(data, fromBits);
    SpreadValue(out, toBits);
    ValueConcat(bits, Falses(k));
    ValueOfFalses(k);
  }

  lemma CeilDiv(bits: nat, width: nat, n: nat)
    requires 1 <= width && n * width == bits + Padding(bits, width)
    ensures n == (bits + width - 1) / width
  {
    DivModUnique(bits + width - 1, width, n, width - 1 - Padding(bits, width));
  }

  /** The number a digit sequence denotes in base 2^width. */
  function BigEndian(data: seq<byte>, width: nat): nat {
    if data == [] then 0 else BigEndian(data[..|data| - 1], width) * Pow2(width) + data[|data| - 1]
  }

  lemma {:induction false} SpreadValue(data: seq<byte>, width: nat)
    requires Digits(data, width)
    ensures Value(Spread(data, width)) == BigEndian(data, width)
  {
    if data != [] {
      var init, last := data[..|data| - 1], data[|data| - 1];
      SpreadValue(init, width);
      assert data == init + [last];
      SpreadAppend(init, last, width);
      ValueConcat(Spread(init, width), Low(last, width));
      ValueOfLow(last, width);
      DivModUnique(last, Pow2(width), 0, last);
    }
  }
}
