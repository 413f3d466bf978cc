/** Bech32 strings worked out on literals: the data five bytes at a time, each five giving eight symbols,
and the recurrence step by step. */
module Walk {
  import opened Bits
  import opened ConvertBits
  import opened Polymod
  import opened Bech32

  // ---- steps of the recurrence ----

  /** One step with the loop over the generators written out. */
  function Next(c: bv32, v: bv32): bv32 { Xor(Xor(Shifted(c), v), Taps(c >> 25)) }

  function Taps(top: bv32): bv32 {
    (if top & 1 == 1 then 0x3b6a57b2 else 0) ^
    (if (top >> 1) & 1 == 1 then 0x26508e6d else 0) ^
    (if (top >> 2) & 1 == 1 then 0x1ea119fa else 0) ^
    (if (top >> 3) & 1 == 1 then 0x3d4233dd else 0) ^
    (if (top >> 4) & 1 == 1 then 0x2a1462b3 else 0)
  }

  lemma TapsAreFeedback(top: bv32)
    ensures Feedback(top, 5) == Taps(top)
  {
    hide Feedback;
    FeedbackUnrolled(top);
  }

  lemma NextIsStep(c: bv32, v: bv32)
    ensures Step(c, v) == Next(c, v)
  {
    hide Feedback, Taps, Xor, Shifted;
    TapsAreFeedback(c >> 25);
  }

  lemma TwoSteps(c: bv32, u: bv32, v: bv32, ws: seq<bv32>) returns (c': bv32)
    ensures c' == Next(Next(c, u), v) && Run(c, [u, v] + ws) == Run(c', ws)
  {
    hide Run, Step, Next;
    RunTwo(c, u, v, ws);
    NextIsStep(c, u);
    NextIsStep(Next(c, u), v);
    c' := Next(Next(c, u), v);
  }

  function WordOf(b: byte): bv32 { b as bv32 }

  lemma Pointwise(values: seq<byte>)
    ensures forall i :: 0 <= i < |values| ==> Words(values)[i] == WordOf(values[i])
  {}

  lemma SymbolWords()
    ensures WordOf(0) == 0 && WordOf(1) == 1 && WordOf(2) == 2 && WordOf(3) == 3 && WordOf(4) == 4 && WordOf(5) == 5
    ensures WordOf(6) == 6 && WordOf(7) == 7 && WordOf(8) == 8 && WordOf(9) == 9 && WordOf(10) == 10 && WordOf(11) == 11
    ensures WordOf(12) == 12 && WordOf(13) == 13 && WordOf(14) == 14 && WordOf(15) == 15 && WordOf(16) == 16
    ensures WordOf(17) == 17 && WordOf(18) == 18 && WordOf(19) == 19 && WordOf(20) == 20 && WordOf(21) == 21
    ensures WordOf(22) == 22 && WordOf(23) == 23 && WordOf(24) == 24 && WordOf(25) == 25 && WordOf(26) == 26
    ensures WordOf(27) == 27 && WordOf(28) == 28 && WordOf(29) == 29 && WordOf(30) == 30 && WordOf(31) == 31
  {}

  /** The symbols lead the recurrence from one state to the other. */
  predicate Walked(from: bv32, symbols: seq<byte>, to: bv32) {
    IsSymbols(symbols) && Run(from, Words(symbols)) == to
  }

  lemma WalkedNowhere(c: bv32)
    ensures Walked(c, [], c)
  {}

  lemma WalkedOn(a: bv32, x: seq<byte>, b: bv32, y: seq<byte>, c: bv32)
    requires Walked(a, x, b) && Walked(b, y, c)
    ensures Walked(a, x + y, c)
  {
    hide Run, Words;
    WordsConcat(x, y);
    RunConcat(a, Words(x), Words(y));
  }

  lemma WalkedTwo(c: bv32, s0: byte, s1: byte)
    requires s0 < 32 && s1 < 32
    ensures Walked(c, [s0, s1], Next(Next(c, WordOf(s0)), WordOf(s1)))
  {
    hide Run, Words, WordOf, Next;
    Pointwise([s0, s1]);
    var to := TwoSteps(c, WordOf(s0), WordOf(s1), []);
    RunNothing(to);
    assert Words([s0, s1]) == [WordOf(s0), WordOf(s1)] + [];
  }

  lemma WalkedOne(c: bv32, s: byte)
    requires s < 32
    ensures Walked(c, [s], Next(c, WordOf(s)))
  {
    hide Words, WordOf, Step, Next;
    Pointwise([s]);
    var w := WordOf(s);
    assert Words([s]) == [w] && [w][1..] == [];
    RunNothing(Step(c, w));
    NextIsStep(c, w);
  }

  lemma WalkedFour(c: bv32, s0: byte, s1: byte, s2: byte, s3: byte)
    requires s0 < 32 && s1 < 32 && s2 < 32 && s3 < 32
    ensures Walked(c, [s0, s1, s2, s3], Next(Next(Next(Next(c, WordOf(s0)), WordOf(s1)), WordOf(s2)), WordOf(s3)))
  {
    hide Walked, WordOf, Next;
    var mid := Next(Next(c, WordOf(s0)), WordOf(s1));
    WalkedTwo(c, s0, s1);
    WalkedTwo(mid, s2, s3);
    WalkedOn(c, [s0, s1], mid, [s2, s3], Next(Next(mid, WordOf(s2)), WordOf(s3)));
    assert [s0, s1] + [s2, s3] == [s0, s1, s2, s3];
  }

  lemma WalkedEight(c: bv32, s0: byte, s1: byte, s2: byte, s3: byte, mid: bv32, s4: byte, s5: byte, s6: byte,
      s7: byte, to: bv32)
    requires s0 < 32 && s1 < 32 && s2 < 32 && s3 < 32 && s4 < 32 && s5 < 32 && s6 < 32 && s7 < 32
    requires Next(Next(Next(Next(c, WordOf(s0)), WordOf(s1)), WordOf(s2)), WordOf(s3)) == mid
    requires Next(Next(Next(Next(mid, WordOf(s4)), WordOf(s5)), WordOf(s6)), WordOf(s7)) == to
    ensures Walked(c, [s0, s1, s2, s3, s4, s5, s6, s7], to)
  {
    hide Walked, WordOf, Next;
    WalkedFour(c, s0, s1, s2, s3);
    WalkedFour(mid, s4, s5, s6, s7);
    WalkedOn(c, [s0, s1, s2, s3], mid, [s4, s5, s6, s7], to);
    assert [s0, s1, s2, s3] + [s4, s5, s6, s7] == [s0, s1, s2, s3, s4, s5, s6, s7];
  }

  // ---- numbers ----

  lemma BigEndianTwo(data: seq<byte>, a: byte, b: byte, width: nat)
    ensures BigEndian(data + [a, b], width) == (BigEndian(data, width) * Pow2(width) + a) * Pow2(width) + b
  {
    hide BigEndian;
    BigEndianNext(data, a, width);
    BigEndianNext(data + [a], b, width);
    assert data + [a] + [b] == data + [a, b];
  }

  lemma BigEndianNext(data: seq<byte>, d: byte, width: nat)
    ensures BigEndian(data + [d], width) == BigEndian(data, width) * Pow2(width) + d
  {
    assert (data + [d])[..|data|] == data;
  }

  lemma BigEndianNothing(width: nat)
    ensures BigEndian([], width) == 0
  {}

  lemma FiveBytes(b0: byte, b1: byte, b2: byte, b3: byte, b4: byte)
    ensures BigEndian([b0, b1, b2, b3, b4], 8) == (((b0 * 256 + b1) * 256 + b2) * 256 + b3) * 256 + b4
  {
    hide BigEndian;
    assert [b0, b1, b2, b3, b4] == [] + [b0] + [b1, b2] + [b3, b4];
    BigEndianNothing(8);
    assert Pow2(8) == 256 by { assert Pow2(4) == 16; }
    BigEndianNext([], b0, 8);
    BigEndianTwo([] + [b0], b1, b2, 8);
    BigEndianTwo([] + [b0] + [b1, b2], b3, b4, 8);
  }

  lemma EightDigits(s0: byte, s1: byte, s2: byte, s3: byte, s4: byte, s5: byte, s6: byte, s7: byte)
    ensures BigEndian([s0, s1, s2, s3, s4, s5, s6, s7], 5)
         == ((((((s0 * 32 + s1) * 32 + s2) * 32 + s3) * 32 + s4) * 32 + s5) * 32 + s6) * 32 + s7
  {
    hide BigEndian;
    assert [s0, s1, s2, s3, s4, s5, s6, s7] == [] + [s0, s1] + [s2, s3] + [s4, s5] + [s6, s7];
    BigEndianNothing(5);
    BigEndianTwo([], s0, s1, 5);
    BigEndianTwo([] + [s0, s1], s2, s3, 5);
    BigEndianTwo([] + [s0, s1] + [s2, s3], s4, s5, 5);
    BigEndianTwo([] + [s0, s1] + [s2, s3] + [s4, s5], s6, s7, 5);
  }

  // ---- five bytes, eight symbols ----

  /** What is written so far: the prefix and separator, then as many bytes as make whole symbols, with the
      states of the recurrence before and after their symbols. */
  datatype Spelling = Spelling(hrp: string, bytes: seq<byte>, symbols: seq<byte>, text: string, from: bv32, to: bv32) {
    function Then(bytes: seq<byte>, symbols: seq<byte>, text: string, to: bv32): Spelling {
      Spelling(hrp, this.bytes + bytes, this.symbols + symbols, this.text + text, from, to)
    }
  }

  predicate Spelled(p: Spelling) {
    && Spread(p.bytes, 8) == Spread(p.symbols, 5)
    && Walked(p.from, p.symbols, p.to)
    && p.text == p.hrp + "1" + Chars(p.symbols)
  }

  lemma NothingSpelled(hrp: string, c: bv32) returns (p: Spelling)
    ensures Spelled(p) && p == Spelling(hrp, [], [], hrp + "1", c, c)
  {
    p := Spelling(hrp, [], [], hrp + "1", c, c);
    assert hrp + "1" + [] == hrp + "1";
  }

  lemma SameNumber(bytes: seq<byte>, symbols: seq<byte>)
    requires |bytes| == 5 && |symbols| == 8 && IsSymbols(symbols) && BigEndian(bytes, 8) == BigEndian(symbols, 5)
    ensures Spread(bytes, 8) == Spread(symbols, 5)
  {
    hide BigEndian, Spread, Value, Low;
    BytesAreDigits(bytes);
    SymbolsAreDigits(symbols);
    SpreadLength(bytes, 8);
    SpreadLength(symbols, 5);
    SpreadValue(bytes, 8);
    SpreadValue(symbols, 5);
    LowOfValue(Spread(bytes, 8));
    LowOfValue(Spread(symbols, 5));
  }

  /** Five bytes and eight symbols that denote the same number. */
  predicate SameBits(b: seq<byte>, s: seq<byte>)
    requires |b| == 5 && |s| == 8
  {
    var n: nat, m: nat := b[0], s[0];
    (((n * 256 + b[1]) * 256 + b[2]) * 256 + b[3]) * 256 + b[4]
    == ((((((m * 32 + s[1]) * 32 + s[2]) * 32 + s[3]) * 32 + s[4]) * 32 + s[5]) * 32 + s[6]) * 32 + s[7]
  }

  /** Five more bytes, as the eight symbols that denote the same number. */
  lemma SpelledOn(p: Spelling, b: seq<byte>, s: seq<byte>, text: string, mid: bv32, to: bv32) returns (q: Spelling)
    requires Spelled(p) && |b| == 5 && |s| == 8 && IsSymbols(s) && Chars(s) == text
    requires SameBits(b, s)
    requires Next(Next(Next(Next(p.to, WordOf(s[0])), WordOf(s[1])), WordOf(s[2])), WordOf(s[3])) == mid
    requires Next(Next(Next(Next(mid, WordOf(s[4])), WordOf(s[5])), WordOf(s[6])), WordOf(s[7])) == to
    ensures Spelled(q) && q == p.Then(b, s, text, to)
  {
    hide BigEndian, Spread, Walked, WordOf, Next, Chars;
    q := p.Then(b, s, text, to);
    EightWalked(p.to, s, mid, to);
    WalkedOn(p.from, p.symbols, p.to, s, to);
    assert b == [b[0], b[1], b[2], b[3], b[4]] && s == [s[0], s[1], s[2], s[3], s[4], s[5], s[6], s[7]];
    FiveBytes(b[0], b[1], b[2], b[3], b[4]);
    EightDigits(s[0], s[1], s[2], s[3], s[4], s[5], s[6], s[7]);
    SameNumber(b, s);
    SpreadConcat(p.bytes, b, 8);
    SpreadConcat(p.symbols, s, 5);
    CharsConcat(p.symbols, s, p.from, p.to);
    assert p.hrp + "1" + Chars(p.symbols) + Chars(s) == p.hrp + "1" + (Chars(p.symbols) + Chars(s));
  }

  lemma EightWalked(c: bv32, s: seq<byte>, mid: bv32, to: bv32)
    requires |s| == 8 && IsSymbols(s)
    requires Next(Next(Next(Next(c, WordOf(s[0])), WordOf(s[1])), WordOf(s[2])), WordOf(s[3])) == mid
    requires Next(Next(Next(Next(mid, WordOf(s[4])), WordOf(s[5])), WordOf(s[6])), WordOf(s[7])) == to
    ensures Walked(c, s, to)
  {
    hide Walked, WordOf, Next;
    WalkedFour(c, s[0], s[1], s[2], s[3]);
    WalkedFour(mid, s[4], s[5], s[6], s[7]);
    WalkedOn(c, [s[0], s[1], s[2], s[3]], mid, [s[4], s[5], s[6], s[7]], to);
    assert [s[0], s[1], s[2], s[3]] + [s[4], s[5], s[6], s[7]] == s;
  }

  lemma CharsConcat(a: seq<byte>, b: seq<byte>, from: bv32, to: bv32)
    requires Walked(from, a, to) && IsSymbols(b)
    ensures IsSymbols(a) && Chars(a + b) == Chars(a) + Chars(b)
  {}

  lemma SpelledData(bytes: seq<byte>, symbols: seq<byte>)
    requires IsSymbols(symbols) && Spread(bytes, 8) == Spread(symbols, 5)
    ensures DataSymbols(bytes) == symbols
  {
    hide Spread;
    SymbolsAreDigits(symbols);
    GroupSpread(symbols, [], 5, true);
    assert Spread(symbols, 5) + [] == Spread(symbols, 5) && symbols + [] == symbols;
  }

  /** Six symbols that lead the recurrence to one complete the string. */
  lemma EncodedSpelled(p: Spelling, sum: seq<byte>, text: string)
    requires Spelled(p) && Walked(1, Expanded(p.hrp), p.from) && Walked(p.to, sum,
        1) && |sum| == 6 && Chars(sum) == text
    ensures Encoded(p.hrp, p.bytes) == p.text + text
  {
    hide Run, Words, Expanded, DataSymbols, Checksum, Chars, Spread;
    var values := Expanded(p.hrp) + p.symbols;
    SpelledData(p.bytes, p.symbols);
    WalkedOn(1, Expanded(p.hrp), p.from, p.symbols, p.to);
    WalkedOn(1, values, p.to, sum, 1);
    ChecksumUnique(values, sum);
    CharsConcat(p.symbols, sum, p.from, p.to);
    assert p.hrp + "1" + Chars(p.symbols) + Chars(sum) == p.hrp + "1" + (Chars(p.symbols) + Chars(sum));
  }
}
