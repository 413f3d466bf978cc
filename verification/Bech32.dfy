/** Bech32 strings as the validator key encoder builds them (pkg/gpub/gpub.go), with the decoder of
BIP-173, section "Bech32", as the reference they are checked against. */
module Bech32 {
  import opened Wrappers
  import opened Bits
  import opened ConvertBits
  import opened Polymod
  import ThreeErrors

  const CHARSET := "qpzry9x8gf2tvdw0s3jn54khce6mua7l"

  predicate IsAscii(s: string) {
    forall i :: 0 <= i < |s| ==> s[i] as int < 128
  }

  predicate IsSymbols(symbols: seq<byte>) {
    forall i :: 0 <= i < |symbols| ==> symbols[i] < 32
  }

  // ---- the human-readable prefix ----

  /** Bytes of a character in UTF-8. */
  function Width(c: char): (w: nat)
    ensures 1 <= w <= 4
  {
    if c as int < 0x80 then 1 else if c as int < 0x800 then 2 else if c as int < 0x1_0000 then 3 else 4
  }

  function NoBytes(n: nat): (zeros: seq<byte>)
    ensures |zeros| == n
  {
    seq(n, i => 0)
  }

  /** What ranging over the prefix leaves per byte: at the first byte of a character its code point,
      cut to a byte; nothing at the others. */
  function Layout(hrp: string): seq<byte> {
    if hrp == "" then [] else Layout(hrp[..|hrp| - 1]) + LayoutOf(hrp[|hrp| - 1])
  }

  function LayoutOf(c: char): (bytes: seq<byte>)
    ensures |bytes| == Width(c) && bytes[0] == c as int % 256
    ensures forall i :: 1 <= i < |bytes| ==> bytes[i] == 0
  {
    [c as int % 256] + NoBytes(Width(c) - 1)
  }

  /** High bits of the layout, a zero, then the low bits. */
  function Expanded(hrp: string): (values: seq<byte>)
    ensures IsSymbols(values)
  {
    Halves(Layout(hrp))
  }

  function Halves(bytes: seq<byte>): (values: seq<byte>)
    ensures IsSymbols(values) && |values| == 2 * |bytes| + 1
  {
    seq(|bytes|, i requires 0 <= i < |bytes| => bytes[i] / 32)
    + [0]
    + seq(|bytes|, i requires 0 <= i < |bytes| => bytes[i] % 32)
  }

  method HrpExpand(hrp: string) returns (values: seq<byte>)
    ensures values == Expanded(hrp)
  {
    hide Layout, Halves, NoBytes;
    var n := ByteLength(hrp);
    var out := new byte[2 * n + 1](i => 0);
    var at := 0;
    NothingFilled(n);
    ZeroArray(out[..]);
    LayoutStart(hrp, n);
    for i := 0 to |hrp|
      invariant at == |Layout(hrp[..i])| <= n
      invariant out[..] == Halves(Layout(hrp[..i]) + NoBytes(n - at))
    {
      LayoutNext(hrp, i);
      LayoutStep(hrp, i, n);
      ghost var was := out[..];
      var b: byte := hrp[i] as int % 256;
      FillByte(Layout(hrp[..i]) + NoBytes(n - at), at, b);
      out[at] := b / 32;
      out[at + n + 1] := b % 32;
      assert out[..] == WithHalves(was, at, b);
      at := at + Width(hrp[i]);
    }
    LayoutEnd(hrp);
    values := out[..];
  }

  lemma ZeroArray(values: seq<byte>)
    requires forall i :: 0 <= i < |values| ==> values[i] == 0
    ensures values == NoBytes(|values|)
  {}

  lemma LayoutStart(hrp: string, n: nat)
    ensures Layout(hrp[..0]) == [] && [] + NoBytes(n) == NoBytes(n)
  {}

  lemma LayoutEnd(hrp: string)
    ensures hrp[..|hrp|] == hrp && Layout(hrp) + NoBytes(0) == Layout(hrp)
  {}

  /** One more character fills in one byte of what is still zero. */
  lemma LayoutStep(hrp: string, i: nat, n: nat)
    requires i < |hrp| && |Layout(hrp[..i])| + Width(hrp[i]) <= n
    ensures var at := |Layout(hrp[..i])|;
            var b: byte := hrp[i] as int % 256;
            Layout(hrp[..i + 1]) + NoBytes(n - at - Width(hrp[i])) == (Layout(hrp[..i]) + NoBytes(n - at))[at := b]
  {
    LayoutNext(hrp, i);
  }

  lemma NothingFilled(n: nat)
    ensures Halves(NoBytes(n)) == NoBytes(2 * n + 1)
  {}

  /** The two values of one byte, written into an expansion. */
  function WithHalves(values: seq<byte>, at: nat, b: byte): seq<byte>
    requires |values| % 2 == 1 && at < |values| / 2
  {
    var high: byte := b / 32;
    var low: byte := b % 32;
    var half: seq<byte> := values[at := high];
    half[|values| / 2 + 1 + at := low]
  }

  lemma FillByte(bytes: seq<byte>, at: nat, b: byte)
    requires at < |bytes|
    ensures Halves(bytes[at := b]) == WithHalves(Halves(bytes), at, b)
  {}

  /** The next character's bytes come after those before it. */
  lemma LayoutNext(hrp: string, i: nat)
    requires i < |hrp|
    ensures Layout(hrp[..i + 1]) == Layout(hrp[..i]) + LayoutOf(hrp[i])
    ensures |Layout(hrp[..i])| + Width(hrp[i]) <= |Layout(hrp)|
  {
    assert hrp[..i + 1][..i] == hrp[..i];
    LayoutGrows(hrp, i + 1);
  }

  lemma {:induction false} LayoutGrows(hrp: string, i: nat)
    requires i <= |hrp|
    ensures |Layout(hrp[..i])| <= |Layout(hrp)|
    decreases |hrp|
  {
    if i == |hrp| {
      assert hrp[..i] == hrp;
    } else {
      LayoutGrows(hrp[..|hrp| - 1], i);
      assert hrp[..|hrp| - 1][..i] == hrp[..i];
    }
  }

  /** `len(hrp)` */
  method ByteLength(hrp: string) returns (n: nat)
    ensures n == |Layout(hrp)|
  {
    n := 0;
    for i := 0 to |hrp|
      invariant n == |Layout(hrp[..i])|
    {
      assert hrp[..i + 1][..i] == hrp[..i];
      n := n + Width(hrp[i]);
    }
    assert hrp[..|hrp|] == hrp;
  }

  lemma HalvesInjective(a: seq<byte>, b: seq<byte>)
    requires Halves(a) == Halves(b)
    ensures a == b
  {
    assert 2 * |a| + 1 == |Halves(a)| == |Halves(b)| == 2 * |b| + 1;
    forall i | 0 <= i < |a|
      ensures a[i] == b[i]
    {
      var x, y := Halves(a), Halves(b);
      assert x[i] == a[i] / 32 && x[|a| + 1 + i] == a[i] % 32;
      assert y[i] == b[i] / 32 && y[|b| + 1 + i] == b[i] % 32;
    }
  }

  /** Two prefixes expand alike exactly when they are laid out alike. */
  lemma ExpandedAlike(a: string, b: string)
    ensures Expanded(a) == Expanded(b) <==> Layout(a) == Layout(b)
  {
    if Expanded(a) == Expanded(b) {
      HalvesInjective(Layout(a), Layout(b));
    }
  }

  lemma {:induction false} AsciiLayout(s: string)
    requires IsAscii(s)
    ensures |Layout(s)| == |s| && forall i :: 0 <= i < |s| ==> Layout(s)[i] == s[i] as int
  {
    if s != "" {
      AsciiLayout(s[..|s| - 1]);
    }
  }

  /** For ASCII prefixes, as BIP-173 demands, the expansion pins the prefix down. */
  lemma ExpandedInjective(a: string, b: string)
    requires IsAscii(a) && IsAscii(b)
    requires Expanded(a) == Expanded(b)
    ensures a == b
  {
    ExpandedAlike(a, b);
    AsciiLayout(a);
    AsciiLayout(b);
    forall i | 0 <= i < |a| ensures a[i] == b[i] {
      assert Layout(a)[i] == Layout(b)[i];
    }
  }

  /** Outside ASCII it need not: code points are cut to their last byte. */
  lemma ExpandedCollides()
    ensures "\U{101}" != "\U{201}" && Expanded("\U{101}") == Expanded("\U{201}")
  {
    var a, b := "\U{101}", "\U{201}";
    assert a[..0] == "" && b[..0] == "";
    assert LayoutOf(a[0]) == LayoutOf(b[0]);
    ExpandedAlike(a, b);
  }

  // ---- the checksum ----

  const SIX_ZEROS: seq<byte> := [0, 0, 0, 0, 0, 0]

  /** The state `createChecksum` cuts into symbols: the run over six zero symbols, plus one. */
  function Target(values: seq<byte>): bv32 {
    Xor(Run(1, Words(values + SIX_ZEROS)), 1)
  }

  function Digit(pm: bv32, i: nat): (d: byte)
    requires i < 6
    ensures d < 32
  {
    DigitBound(pm, i);
    Narrowed(DigitWord(pm, i))
  }

  function Narrowed(five: bv32): (d: byte)
    requires five < 32
    ensures d < 32
  {
    WordSymbol(five);
    five as nat
  }

  function DigitWord(pm: bv32, i: nat): bv32 {
    if i == 0 then (pm >> 25) & 31
    else if i == 1 then (pm >> 20) & 31
    else if i == 2 then (pm >> 15) & 31
    else if i == 3 then (pm >> 10) & 31
    else if i == 4 then (pm >> 5) & 31
    else pm & 31
  }

  lemma DigitBound(pm: bv32, i: nat)
    ensures DigitWord(pm, i) < 32
  {}

  /** `pm >> shift & 31` */
  function Five(pm: bv32, shift: bv32): (five: bv32)
    requires shift <= 32
    ensures five < 32
  {
    (pm >> shift) & 31
  }

  /** `uint(5 * (5 - i))` */
  function ShiftOf(i: nat): (shift: bv32)
    requires i < 6
    ensures shift <= 32
  {
    ShiftIs(i);
    (5 * (5 - i)) as bv32
  }

  lemma ShiftIs(i: nat)
    requires i < 6
    ensures ((5 * (5 - i)) as bv32) == if i == 0 then 25 else if i == 1 then 20 else if i == 2 then 15 else if i == 3 then 10 else if i == 4 then 5 else 0
  {
    if i == 0 {} else if i == 1 {} else if i == 2 {} else if i == 3 {} else if i == 4 {} else {}
  }

  lemma DigitShift(pm: bv32, i: nat)
    requires i < 6
    ensures DigitWord(pm, i) == Five(pm, ShiftOf(i))
  {
    hide DigitWord, Five;
    ShiftIs(i);
    if i == 0 { Digit0(pm); } else if i == 1 { Digit1(pm); } else if i == 2 { Digit2(pm); }
    else if i == 3 { Digit3(pm); } else if i == 4 { Digit4(pm); } else { Digit5(pm); }
  }

  lemma Digit0(pm: bv32)
    ensures DigitWord(pm, 0) == Five(pm, 25)
  {}

  lemma Digit1(pm: bv32)
    ensures DigitWord(pm, 1) == Five(pm, 20)
  {}

  lemma Digit2(pm: bv32)
    ensures DigitWord(pm, 2) == Five(pm, 15)
  {}

  lemma Digit3(pm: bv32)
    ensures DigitWord(pm, 3) == Five(pm, 10)
  {}

  lemma Digit4(pm: bv32)
    ensures DigitWord(pm, 4) == Five(pm, 5)
  {}

  lemma Digit5(pm: bv32)
    ensures DigitWord(pm, 5) == Five(pm, 0)
  { assert pm >> 0 == pm; }

  function Cut(pm: bv32): (symbols: seq<byte>)
    ensures |symbols| == 6 && IsSymbols(symbols)
  {
    seq(6, i requires 0 <= i < 6 => Digit(pm, i))
  }

  function Checksum(values: seq<byte>): (symbols: seq<byte>)
    ensures |symbols| == 6 && IsSymbols(symbols)
  {
    Cut(Target(values))
  }

  /** The i-th symbol as the source computes it. */
  function ShiftedOut(pm: bv32, i: nat): byte
    requires i < 6
  {
    Narrowed(Five(pm, ShiftOf(i)))
  }

  lemma ShiftedOutIsDigit(pm: bv32, i: nat)
    requires i < 6
    ensures ShiftedOut(pm, i) == Digit(pm, i)
  {
    hide Five, ShiftOf, DigitWord, Narrowed;
    DigitShift(pm, i);
  }

  method CreateChecksum(hrp: string, data: seq<byte>) returns (symbols: seq<byte>)
    ensures symbols == Checksum(Expanded(hrp) + data)
  {
    hide Xor, Run, Digit, ShiftedOut, Words, Expanded;
    var values := HrpExpand(hrp);
    values := values + data;
    values := values + SIX_ZEROS;
    var state := Polymod.Polymod(values);
    var pm := Xor(state, 1);
    var out := new byte[6](i => 0);
    for i := 0 to 6
      invariant forall k :: 0 <= k < i ==> out[k] == Digit(pm, k)
    {
      ShiftedOutIsDigit(pm, i);
      out[i] := ShiftedOut(pm, i);
    }
    symbols := out[..];
    assert symbols == Cut(pm);
  }

  /** A receiver accepts the symbols that follow the prefix exactly when the state ends at one. */
  predicate Verifies(values: seq<byte>) {
    Run(1, Words(values)) == 1
  }

  function Joined(a: bv32, b: bv32, c: bv32, d: bv32, e: bv32, f: bv32): bv32 {
    Appended(Appended(Appended(Appended(Appended(a, b), c), d), e), f)
  }

  lemma JoinedDigits(pm: bv32)
    requires pm < STATE_LIMIT
    ensures Joined(DigitWord(pm, 0), DigitWord(pm, 1), DigitWord(pm, 2), DigitWord(pm, 3), DigitWord(pm, 4), DigitWord(pm, 5)) == pm
  {}

  lemma LimitZero()
    ensures Limit(0) == 1
  {}

  lemma AppendedToZero(v: bv32)
    ensures Appended(0, v) == v
  {}

  lemma SixSteps(a: bv32, b: bv32, c: bv32, d: bv32, e: bv32, f: bv32)
    requires a < 32 && b < 32 && c < 32 && d < 32 && e < 32 && f < 32
    ensures Run(0, [a, b, c, d, e, f]) == Joined(a, b, c, d, e, f)
  {
    hide Step, Limit, Appended, Run;
    LimitZero();
    AppendSymbol(0, 0, a);
    AppendedToZero(a);
    AppendSymbol(1, a, b);
    var s1 := Step(a, b);
    AppendSymbol(2, s1, c);
    var s2 := Step(s1, c);
    AppendSymbol(3, s2, d);
    var s3 := Step(s2, d);
    AppendSymbol(4, s3, e);
    AppendSymbol(5, Step(s3, e), f);
    SixRuns(a, b, c, d, e, f);
  }

  lemma SixRuns(a: bv32, b: bv32, c: bv32, d: bv32, e: bv32, f: bv32)
    ensures Run(0, [a, b, c, d, e, f]) == Step(Step(Step(Step(Step(Step(0, a), b), c), d), e), f)
  {
    hide Step, Run;
    RunTwo(0, a, b, [c, d, e, f]);
    assert [a, b, c, d, e, f] == [a, b] + [c, d, e, f];
    var s1 := Step(Step(0, a), b);
    RunTwo(s1, c, d, [e, f]);
    assert [c, d, e, f] == [c, d] + [e, f];
    var s3 := Step(Step(s1, c), d);
    RunTwo(s3, e, f, []);
    assert [e, f] == [e, f] + [];
    RunNothing(Step(Step(s3, e), f));
  }

  lemma RunNothing(chk: bv32)
    ensures Run(chk, []) == chk
  {}

  function DigitWords(pm: bv32): seq<bv32> {
    [DigitWord(pm, 0), DigitWord(pm, 1), DigitWord(pm, 2), DigitWord(pm, 3), DigitWord(pm, 4), DigitWord(pm, 5)]
  }

  lemma CutWords(pm: bv32)
    ensures Words(Cut(pm)) == DigitWords(pm)
  {
    hide DigitWord, Words, Cut;
    CutWord(pm, 0);
    CutWord(pm, 1);
    CutWord(pm, 2);
    CutWord(pm, 3);
    CutWord(pm, 4);
    CutWord(pm, 5);
  }

  lemma CutWord(pm: bv32, i: nat)
    requires i < 6
    ensures Words(Cut(pm))[i] == DigitWord(pm, i)
  {
    hide DigitWord;
    DigitBound(pm, i);
    WordSymbol(DigitWord(pm, i));
  }

  lemma RunOfCut(pm: bv32)
    requires pm < STATE_LIMIT
    ensures Run(0, Words(Cut(pm))) == pm
  {
    hide Run, DigitWord, Joined, Words, Cut;
    CutWords(pm);
    forall i | 0 <= i < 6 ensures DigitWord(pm, i) < 32 { DigitBound(pm, i); }
    SixSteps(DigitWord(pm, 0), DigitWord(pm, 1), DigitWord(pm, 2), DigitWord(pm, 3), DigitWord(pm, 4), DigitWord(pm, 5));
    JoinedDigits(pm);
  }

  /** For every prefix and every symbol sequence, the six symbols computed from them verify. */
  lemma ChecksumVerifies(values: seq<byte>)
    requires IsSymbols(values)
    ensures Verifies(values + Checksum(values))
  {
    hide Run, Xor, Cut, XorAll;
    var state := Run(1, Words(values));
    var zeros, sum := Words(SIX_ZEROS), Words(Checksum(values));
    var pm := Target(values);
    WordsConcat(values, SIX_ZEROS);
    RunConcat(1, Words(values), zeros);
    WordsConcat(values, Checksum(values));
    RunConcat(1, Words(values), sum);
    TargetBound(values);
    RunOfCut(pm);
    RunXor(state, 0, zeros, sum);
    XorUnit(state);
    XorAllZeros(sum);
    assert Run(state, sum) == Xor(Run(state, zeros), Xor(Run(state, zeros), 1));
    XorCancel(Run(state, zeros), 1);
  }

  lemma XorAllZeros(ws: seq<bv32>)
    requires |ws| == 6
    ensures Words(SIX_ZEROS) == Zeros(6)
    ensures XorAll(Words(SIX_ZEROS), ws) == ws
  {
    hide Xor;
    SymbolWord(0);
    forall i | 0 <= i < 6 ensures XorAll(Words(SIX_ZEROS), ws)[i] == ws[i] { XorUnit(ws[i]); }
  }

  lemma TargetBound(values: seq<byte>)
    requires IsSymbols(values)
    ensures Target(values) < STATE_LIMIT
  {
    hide Run, Xor;
    WordsOfSymbols(values + SIX_ZEROS);
    RunBound(1, Words(values + SIX_ZEROS));
    XorBound(Run(1, Words(values + SIX_ZEROS)), 1);
  }

  /** A burst of at most six consecutive wrong symbols never verifies, at any length. */
  lemma CorruptionFails(good: seq<byte>, bad: seq<byte>, p: nat, k: nat)
    requires IsSymbols(good) && IsSymbols(bad) && |good| == |bad|
    requires p + k <= |good| && k <= 6
    requires good[..p] == bad[..p] && good[p + k..] == bad[p + k..]
    requires Verifies(good) && good != bad
    ensures !Verifies(bad)
  {
    hide Run;
    WordsOfSymbols(good);
    WordsOfSymbols(bad);
    var us, vs := Words(good), Words(bad);
    if us == vs {
      WordsInjective(good, bad);
    }
    forall i | 0 <= i < |us| && !(p <= i < p + k)
      ensures us[i] == vs[i]
    {
      assert i < p ==> good[i] == good[..p][i] && bad[i] == bad[..p][i];
      assert p + k <= i ==> good[i] == good[p + k..][i - p - k] && bad[i] == bad[p + k..][i - p - k];
    }
    BurstDetected(1, us, vs, p, k);
  }

  /** The checksum is the only one: six symbols verify exactly when they are the computed ones. */
  lemma ChecksumUnique(values: seq<byte>, sum: seq<byte>)
    requires IsSymbols(values) && IsSymbols(sum) && |sum| == 6
    ensures Verifies(values + sum) <==> sum == Checksum(values)
  {
    hide Run, Checksum;
    ChecksumVerifies(values);
    var good, bad := values + Checksum(values), values + sum;
    if good != bad {
      CorruptionFails(good, bad, |values|, 6);
    } else {
      assert sum == bad[|values|..] == good[|values|..] == Checksum(values);
    }
  }

  // ---- the encoded string ----

  function Chars(symbols: seq<byte>): (s: string)
    requires IsSymbols(symbols)
    ensures |s| == |symbols|
  {
    seq(|symbols|, i requires 0 <= i < |symbols| => CHARSET[symbols[i]])
  }

  function DataSymbols(data: seq<byte>): (symbols: seq<byte>)
    ensures IsSymbols(symbols)
  {
    BytesAreDigits(data);
    RegroupRoundTrip(data, 8, 5);
    assert Pow2(5) == 32 by { assert Pow2(3) == 8; }
    Regroup(data, 8, 5, true)
  }

  lemma BytesAreDigits(data: seq<byte>)
    ensures Digits(data, 8)
  {
    assert Pow2(8) == 256 by { assert Pow2(4) == 16; }
  }

  function Encoded(hrp: string, data: seq<byte>): string
  {
    var symbols := DataSymbols(data);
    hrp + "1" + Chars(symbols + Checksum(Expanded(hrp) + symbols))
  }

  method Encode(hrp: string, data: seq<byte>, wordBits: nat) returns (s: string)
    requires wordBits == 32 || wordBits == 64
    ensures s == Encoded(hrp, data)
  {
    hide Regroup, Checksum;
    BytesAreDigits(data);
    var d5 := Convert(data, 8, 5, true, wordBits);
    assert d5 == DataSymbols(data);
    var sum := CreateChecksum(hrp, d5);
    var combined := d5 + sum;
    s := hrp;
    s := s + "1";
    for i := 0 to |combined|
      invariant s == hrp + "1" + Chars(combined)[..i]
    {
      s := s + [CHARSET[combined[i]]];
    }
  }

  // ---- the reference decoder ----

  /** The position of a character in the charset; 32 when it is not there. */
  function SymbolOf(c: char, from: nat): (v: nat)
    requires from <= 32
    ensures from <= v <= 32
    ensures v < 32 ==> CHARSET[v] == c
    ensures forall i :: from <= i < v ==> CHARSET[i] != c
    decreases 32 - from
  {
    if from == 32 || CHARSET[from] == c then from else SymbolOf(c, from + 1)
  }

  predicate InCharset(s: string) {
    forall i :: 0 <= i < |s| ==> SymbolOf(s[i], 0) < 32
  }

  function SymbolsOf(s: string): (symbols: seq<byte>)
    requires InCharset(s)
    ensures |symbols| == |s| && IsSymbols(symbols)
  {
    seq(|s|, i requires 0 <= i < |s| => SymbolOf(s[i], 0))
  }

  /** Checks prefix, separator, charset, checksum and padding, and regroups the data symbols into bytes:
      a decoder of BIP-173 but for its limits on length and prefix. */
  function Decoded(hrp: string, s: string): Option<seq<byte>> {
    var n := |hrp| + 1;
    if |s| < n + 6 || s[..n] != hrp + "1" || !InCharset(s[n..]) then None
    else
      var symbols := SymbolsOf(s[n..]);
      var data := symbols[..|symbols| - 6];
      if Verifies(Expanded(hrp) + symbols) && PaddingOk(data, 5, 8) then Some(Regroup(data, 5, 8, false)) else None
  }

  lemma CharsetDistinct(i: nat, j: nat)
    requires i < j < 32
    ensures CHARSET[i] != CHARSET[j]
  {}

  lemma SymbolOfChar(v: nat)
    requires v < 32
    ensures SymbolOf(CHARSET[v], 0) == v
  {
    var w := SymbolOf(CHARSET[v], 0);
    if w < v {
      CharsetDistinct(w, v);
    }
  }

  lemma SymbolsOfChars(symbols: seq<byte>)
    requires IsSymbols(symbols)
    ensures InCharset(Chars(symbols)) && SymbolsOf(Chars(symbols)) == symbols
  {
    forall i | 0 <= i < |symbols| ensures SymbolOf(Chars(symbols)[i], 0) == symbols[i] { SymbolOfChar(symbols[i]); }
  }

  lemma CharsOfSymbols(s: string)
    requires InCharset(s)
    ensures Chars(SymbolsOf(s)) == s
  {}

  lemma SymbolsAreDigits(symbols: seq<byte>)
    ensures IsSymbols(symbols) <==> Digits(symbols, 5)
  {
    assert Pow2(5) == 32 by { assert Pow2(3) == 8; }
  }

  /** Encoding is undone by the decoder, for every prefix and every byte sequence. */
  lemma DecodeEncode(hrp: string, data: seq<byte>)
    ensures Decoded(hrp, Encoded(hrp, data)) == Some(data)
  {
    hide Verifies, Checksum, Regroup, PaddingOk;
    var d5 := DataSymbols(data);
    var values := Expanded(hrp);
    var symbols := d5 + Checksum(values + d5);
    var s := Encoded(hrp, data);
    var n := |hrp| + 1;
    assert s[..n] == hrp + "1" && s[n..] == Chars(symbols);
    SymbolsOfChars(symbols);
    ChecksumVerifies(values + d5);
    assert values + symbols == values + d5 + Checksum(values + d5);
    assert symbols[..|symbols| - 6] == d5;
    BytesAreDigits(data);
    SymbolsAreDigits(d5);
    RegroupRoundTrip(data, 8, 5);
    RegroupBack(d5, 5, 8);
  }

  /** And what the decoder accepts is what the encoder writes, nothing else: there is one string for each
      prefix and byte sequence. */
  lemma DecodedIff(hrp: string, s: string, data: seq<byte>)
    ensures Decoded(hrp, s) == Some(data) <==> s == Encoded(hrp, data)
  {
    hide Verifies, Checksum, Regroup, PaddingOk, Expanded, Decoded, Encoded, Chars, SymbolsOf;
    DecodeEncode(hrp, data);
    if Decoded(hrp, s) == Some(data) {
      var d5, sum := DecodedParts(hrp, s, data);
      EncodedParts(hrp, data, d5, sum);
    }
  }

  lemma DecodedParts(hrp: string, s: string, data: seq<byte>) returns (d5: seq<byte>, sum: seq<byte>)
    requires Decoded(hrp, s) == Some(data)
    ensures IsSymbols(d5) && IsSymbols(sum) && |sum| == 6 && s == hrp + "1" + Chars(d5 + sum)
    ensures PaddingOk(d5, 5, 8) && data == Regroup(d5, 5, 8, false) && Verifies(Expanded(hrp) + d5 + sum)
  {
    hide Verifies, Checksum, Regroup, PaddingOk, Expanded, SymbolsOf, InCharset;
    var n := |hrp| + 1;
    var symbols := SymbolsOf(s[n..]);
    d5, sum := symbols[..|symbols| - 6], symbols[|symbols| - 6..];
    assert d5 + sum == symbols;
    CharsOfSymbols(s[n..]);
    assert s == s[..n] + s[n..];
    assert Expanded(hrp) + symbols == Expanded(hrp) + d5 + sum;
  }

  lemma EncodedParts(hrp: string, data: seq<byte>, d5: seq<byte>, sum: seq<byte>)
    requires IsSymbols(d5) && IsSymbols(sum) && |sum| == 6
    requires PaddingOk(d5, 5, 8) && data == Regroup(d5, 5, 8, false) && Verifies(Expanded(hrp) + d5 + sum)
    ensures Encoded(hrp, data) == hrp + "1" + Chars(d5 + sum)
  {
    hide Verifies, Checksum, Regroup, PaddingOk, Expanded, Chars;
    SymbolsAreDigits(d5);
    RegroupBack(d5, 5, 8);
    ChecksumUnique(Expanded(hrp) + d5, sum);
  }

  // ---- the limits of the standard ----

  const MAX_STRING := 90
  const MAX_PREFIX := 83

  /** 1 to 83 printable ASCII characters; upper case would mix with the lower case of the data. */
  predicate StandardPrefix(hrp: string) {
    1 <= |hrp| <= MAX_PREFIX && forall i :: 0 <= i < |hrp| ==> 33 <= hrp[i] as int <= 126 && !('A' <= hrp[i] <= 'Z')
  }

  function StandardDecoded(hrp: string, s: string): Option<seq<byte>> {
    if StandardPrefix(hrp) && |s| <= MAX_STRING then Decoded(hrp, s) else None
  }

  /** What the encoder writes is a string of the standard exactly when the prefix is one and prefix,
      data symbols and seven more characters fit. The encoder checks neither. */
  lemma StandardIff(hrp: string, data: seq<byte>)
    ensures StandardDecoded(hrp, Encoded(hrp, data)) == Some(data)
            <==> StandardPrefix(hrp) && |hrp| + (8 * |data| + 4) / 5 <= 83
  {
    hide Decoded, Checksum;
    DecodeEncode(hrp, data);
    EncodedLength(hrp, data);
  }

  lemma EncodedLength(hrp: string, data: seq<byte>)
    ensures |Encoded(hrp, data)| == |hrp| + 7 + (8 * |data| + 4) / 5
  {
    hide Checksum, Regroup;
    BytesAreDigits(data);
    RegroupValue(data, 8, 5);
  }

  lemma EncodedInjective(hrp: string, a: seq<byte>, b: seq<byte>)
    requires Encoded(hrp, a) == Encoded(hrp, b)
    ensures a == b
  {
    DecodeEncode(hrp, a);
    DecodeEncode(hrp, b);
  }

  /** Corrupting up to six consecutive characters after the separator of any accepted string gives a
      string that is not accepted. */
  lemma CorruptionRejected(hrp: string, s: string, t: string, p: nat, k: nat)
    requires t != s && |t| == |s|
    requires |hrp| + 1 <= p && p + k <= |s| && k <= 6
    requires t[..p] == s[..p] && t[p + k..] == s[p + k..]
    ensures Decoded(hrp, s) != None ==> Decoded(hrp, t) == None
  {
    hide Verifies, Expanded, Chars, SymbolsOf;
    var n := |hrp| + 1;
    if Decoded(hrp, s) != None && Decoded(hrp, t) != None {
      var good, bad := SymbolsOf(s[n..]), SymbolsOf(t[n..]);
      SymbolsDiffer(s, t, n, p, k);
      Window(Expanded(hrp), good, bad, p - n, k);
      CorruptionFails(Expanded(hrp) + good, Expanded(hrp) + bad, |Expanded(hrp)| + p - n, k);
    }
  }

  lemma CorruptedEncodingRejected(hrp: string, data: seq<byte>, t: string, p: nat, k: nat)
    requires var s := Encoded(hrp, data);
             && t != s && |t| == |s|
             && |hrp| + 1 <= p && p + k <= |s| && k <= 6
             && t[..p] == s[..p] && t[p + k..] == s[p + k..]
    ensures Decoded(hrp, t) == None
  {
    hide Decoded;
    DecodeEncode(hrp, data);
    CorruptionRejected(hrp, Encoded(hrp, data), t, p, k);
  }

  /** Changing up to three characters after the separator, less than 1023 apart, of any accepted string
      gives a string that is not accepted. */
  lemma ThreeErrorsRejected(hrp: string, s: string, t: string, p: nat, q: nat, r: nat)
    requires t != s && |t| == |s|
    requires |hrp| + 1 <= p < q < r < |s| && r - p < 1023
    requires forall i :: 0 <= i < |s| && i != p && i != q && i != r ==> t[i] == s[i]
    ensures Decoded(hrp, s) != None ==> Decoded(hrp, t) == None
  {
    hide Verifies, Expanded, Chars, SymbolsOf, InCharset, Decoded;
    if Decoded(hrp, s) != None && Decoded(hrp, t) != None {
      var n := |hrp| + 1;
      DecodedVerifies(hrp, s);
      DecodedVerifies(hrp, t);
      TailsDiffer(s, t, n, p, r - p + 1);
      CharsOfSymbols(s[n..]);
      CharsOfSymbols(t[n..]);
      forall i | 0 <= i < |s| - n && i != p - n && i != q - n && i != r - n
        ensures SymbolsOf(s[n..])[i] == SymbolsOf(t[n..])[i]
      {
        assert t[n + i] == s[n + i];
        SameChar(s[n..], t[n..], i);
      }
      ThreeSymbols(Expanded(hrp), SymbolsOf(s[n..]), SymbolsOf(t[n..]), p - n, q - n, r - n);
    }
  }

  lemma DecodedVerifies(hrp: string, s: string)
    requires Decoded(hrp, s) != None
    ensures |s| >= |hrp| + 7 && InCharset(s[|hrp| + 1..]) && Verifies(Expanded(hrp) + SymbolsOf(s[|hrp| + 1..]))
  {
    hide Verifies, Expanded, SymbolsOf, InCharset;
  }

  lemma ThreeSymbols(values: seq<byte>, a: seq<byte>, b: seq<byte>, p: nat, q: nat, r: nat)
    requires IsSymbols(values) && IsSymbols(a) && IsSymbols(b) && |a| == |b| && a != b && p < q < r < |a| && r - p < 1023
    requires forall i :: 0 <= i < |a| && i != p && i != q && i != r ==> a[i] == b[i]
    ensures !(Verifies(values + a) && Verifies(values + b))
  {
    hide Run;
    var us, vs, m := Words(values + a), Words(values + b), |values|;
    WordsOfSymbols(values + a);
    WordsOfSymbols(values + b);
    WordsDiffer(values, a, b);
    forall i | 0 <= i < |us| && i != m + p && i != m + q && i != m + r ensures us[i] == vs[i] {
      assert (values + a)[i] == (values + b)[i];
    }
    ThreeErrors.ThreeErrorsDetected(1, us, vs, m + p, m + q, m + r);
  }

  lemma WordsDiffer(values: seq<byte>, a: seq<byte>, b: seq<byte>)
    requires IsSymbols(values) && IsSymbols(a) && IsSymbols(b)
    ensures Words(values + a) == Words(values + b) ==> a == b
  {
    if Words(values + a) == Words(values + b) {
      WordsInjective(values + a, values + b);
      assert a == (values + a)[|values|..] && b == (values + b)[|values|..];
    }
  }

  lemma SymbolsDiffer(s: string, t: string, n: nat, p: nat, k: nat)
    requires |s| == |t| && s != t && n <= p && p + k <= |s|
    requires s[..p] == t[..p] && s[p + k..] == t[p + k..]
    requires InCharset(s[n..]) && InCharset(t[n..])
    ensures var a, b := SymbolsOf(s[n..]), SymbolsOf(t[n..]);
            a != b && forall i :: 0 <= i < |a| && !(p - n <= i < p - n + k) ==> a[i] == b[i]
  {
    hide SymbolsOf, InCharset;
    TailsDiffer(s, t, n, p, k);
    CharsOfSymbols(s[n..]);
    CharsOfSymbols(t[n..]);
    forall i | 0 <= i < |s| - n && !(p - n <= i < p - n + k)
      ensures SymbolsOf(s[n..])[i] == SymbolsOf(t[n..])[i]
    {
      SameChar(s[n..], t[n..], i);
    }
  }

  lemma SameChar(s: string, t: string, i: nat)
    requires InCharset(s) && InCharset(t) && i < |s| && i < |t| && s[i] == t[i]
    ensures SymbolsOf(s)[i] == SymbolsOf(t)[i]
  {}

  lemma TailsDiffer(s: string, t: string, n: nat, p: nat, k: nat)
    requires |s| == |t| && s != t && n <= p && p + k <= |s|
    requires s[..p] == t[..p] && s[p + k..] == t[p + k..]
    ensures s[n..] != t[n..]
    ensures forall i :: 0 <= i < |s| - n && !(p - n <= i < p - n + k) ==> s[n..][i] == t[n..][i]
  {
    assert s[..n] == s[..p][..n] == t[..p][..n] == t[..n];
    assert s == s[..n] + s[n..] && t == t[..n] + t[n..];
    forall i | 0 <= i < |s| - n && !(p - n <= i < p - n + k)
      ensures s[n..][i] == t[n..][i]
    {
      assert n + i < p ==> s[n + i] == s[..p][n + i] && t[n + i] == t[..p][n + i];
      assert p + k <= n + i ==> s[n + i] == s[p + k..][n + i - p - k] && t[n + i] == t[p + k..][n + i - p - k];
    }
  }

  lemma Window(values: seq<byte>, a: seq<byte>, b: seq<byte>, p: nat, k: nat)
    requires |a| == |b| && p + k <= |a| && a != b
    requires forall i :: 0 <= i < |a| && !(p <= i < p + k) ==> a[i] == b[i]
    ensures var x, y, q := values + a, values + b, |values| + p;
            x != y && x[..q] == y[..q] && x[q + k..] == y[q + k..]
  {
    var x, y := values + a, values + b;
    assert x[|values|..] == a && y[|values|..] == b;
  }
}
