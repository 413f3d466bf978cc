/** The validator key of the repository's own test (pkg/gpub/gpub_test.go), worked out. */
module KeyVector {
  import opened Bits
  import opened Bech32
  import opened Gpub
  import opened Walk

  /** The bytes of mKsg1XPxANeixURll0tm+FdymdT7qyOMs8h0lliCK6w= in base64. */
  const TEST_KEY: seq<byte> :=
    [0x98, 0xab] + [0x20, 0xd5, 0x73, 0xf1, 0x00] + [0xd7, 0xa2, 0xc5, 0x44, 0x65] +
        [0x97, 0x4b, 0x66, 0xf8, 0x57] + [0x72, 0x99, 0xd4, 0xfb, 0xab] + [0x23, 0x8c, 0xb3, 0xc8, 0x74] +
        [0x96, 0x58, 0x82, 0x2b, 0xac]

  lemma KeyLayout()
    ensures Layout("gpub") == [103, 112, 117, 98]
  {
    AsciiLayout("gpub");
  }

  lemma KeyPrefix()
    ensures Expanded("gpub") == [3, 3, 3, 3, 0, 7, 16, 21, 2]
  {
    hide Layout;
    KeyLayout();
  }

  lemma KeyStart()
    ensures Walked(0x1, Expanded("gpub"), 0x17772dfb)
  {
    hide Walked, WordOf, Expanded;
    KeyPrefix();
    SymbolWords();
    EightWalked(0x1, [3, 3, 3, 3, 0, 7, 16, 21], 0x118c63, 0x3dc68758);
    WalkedOne(0x3dc68758, 2);
    WalkedOn(0x1, [3, 3, 3, 3, 0, 7, 16, 21], 0x3dc68758, [2], 0x17772dfb);
    assert [3, 3, 3, 3, 0, 7, 16, 21] + [2] == [3, 3, 3, 3, 0, 7, 16, 21, 2];
  }

  lemma Key0Text()
    ensures Chars([1, 8, 8, 18, 30, 29, 3, 13]) == "pggj7ard"
  {}

  lemma Key0(p: Spelling) returns (q: Spelling)
    requires Spelled(p) && p.to == 0x17772dfb
    ensures Spelled(q) && q == p.Then([0x0a, 0x11, 0x2f, 0x74, 0x6d], [1, 8, 8, 18, 30, 29, 3, 13],
        "pggj7ard", 0x1364372b)
  {
    hide Spelled, WordOf, Chars;
    SymbolWords();
    Key0Text();
    q := SpelledOn(p, [0x0a, 0x11, 0x2f, 0x74, 0x6d], [1, 8, 8, 18, 30, 29, 3, 13], "pggj7ard", 0x1f6a5194, 0x1364372b);
  }

  lemma Key1Text()
    ensures Chars([5, 25, 8, 7, 10, 24, 18, 11]) == "9eg82cjt"
  {}

  lemma Key1(p: Spelling) returns (q: Spelling)
    requires Spelled(p) && p.to == 0x1364372b
    ensures Spelled(q) && q == p.Then([0x2e, 0x50, 0x75, 0x62, 0x4b], [5, 25, 8, 7, 10, 24, 18, 11],
        "9eg82cjt", 0x43717dd)
  {
    hide Spelled, WordOf, Chars;
    SymbolWords();
    Key1Text();
    q := SpelledOn(p, [0x2e, 0x50, 0x75, 0x62, 0x4b], [5, 25, 8, 7, 10, 24, 18, 11], "9eg82cjt", 0xefa1180, 0x43717dd);
  }

  lemma Key2Text()
    ensures Chars([12, 21, 28, 20, 10, 25, 1, 18]) == "v4u52epj"
  {}

  lemma Key2(p: Spelling) returns (q: Spelling)
    requires Spelled(p) && p.to == 0x43717dd
    ensures Spelled(q) && q == p.Then([0x65, 0x79, 0x45, 0x64, 0x32], [12, 21, 28, 20, 10, 25, 1, 18],
        "v4u52epj", 0x3eec2e96)
  {
    hide Spelled, WordOf, Chars;
    SymbolWords();
    Key2Text();
    q := SpelledOn(p, [0x65, 0x79, 0x45, 0x64, 0x32], [12, 21, 28, 20, 10, 25, 1, 18],
        "v4u52epj", 0x13d6286a, 0x3eec2e96);
  }

  lemma Key3Text()
    ensures Chars([6, 20, 26, 19, 2, 14, 8, 18]) == "x56nzwgj"
  {}

  lemma Key3(p: Spelling) returns (q: Spelling)
    requires Spelled(p) && p.to == 0x3eec2e96
    ensures Spelled(q) && q == p.Then([0x35, 0x35, 0x31, 0x39, 0x12], [6, 20, 26, 19, 2, 14, 8, 18],
        "x56nzwgj", 0xcb9e67c)
  {
    hide Spelled, WordOf, Chars;
    SymbolWords();
    Key3Text();
    q := SpelledOn(p, [0x35, 0x35, 0x31, 0x39, 0x12], [6, 20, 26, 19, 2, 14, 8, 18], "x56nzwgj", 0x3cfdbc38, 0xcb9e67c);
  }

  lemma Key4Text()
    ensures Chars([4, 8, 5, 2, 1, 6, 5, 11]) == "yg9zpx9t"
  {}

  lemma Key4(p: Spelling) returns (q: Spelling)
    requires Spelled(p) && p.to == 0xcb9e67c
    ensures Spelled(q) && q == p.Then([0x22, 0x0a, 0x20, 0x98, 0xab], [4, 8, 5, 2, 1, 6, 5, 11], "yg9zpx9t", 0x227bfbac)
  {
    hide Spelled, WordOf, Chars;
    SymbolWords();
    Key4Text();
    q := SpelledOn(p, [0x22, 0x0a, 0x20, 0x98, 0xab], [4, 8, 5, 2, 1, 6, 5, 11], "yg9zpx9t", 0x3332cb96, 0x227bfbac);
  }

  lemma Key5Text()
    ensures Chars([4, 3, 10, 23, 7, 28, 8, 0]) == "yr2h8ugq"
  {}

  lemma Key5(p: Spelling) returns (q: Spelling)
    requires Spelled(p) && p.to == 0x227bfbac
    ensures Spelled(q) && q == p.Then([0x20, 0xd5, 0x73, 0xf1, 0x00], [4, 3, 10, 23, 7, 28, 8, 0],
        "yr2h8ugq", 0x382eed8a)
  {
    hide Spelled, WordOf, Chars;
    SymbolWords();
    Key5Text();
    q := SpelledOn(p, [0x20, 0xd5, 0x73, 0xf1, 0x00], [4, 3, 10, 23, 7, 28, 8, 0], "yr2h8ugq", 0x3bf40a7f, 0x382eed8a);
  }

  lemma Key6Text()
    ensures Chars([26, 30, 17, 12, 10, 17, 3, 5]) == "673v23r9"
  {}

  lemma Key6(p: Spelling) returns (q: Spelling)
    requires Spelled(p) && p.to == 0x382eed8a
    ensures Spelled(q) && q == p.Then([0xd7, 0xa2, 0xc5, 0x44, 0x65], [26, 30, 17, 12, 10, 17, 3, 5],
        "673v23r9", 0x2f03ebca)
  {
    hide Spelled, WordOf, Chars;
    SymbolWords();
    Key6Text();
    q := SpelledOn(p, [0xd7, 0xa2, 0xc5, 0x44, 0x65], [26, 30, 17, 12, 10, 17, 3, 5],
        "673v23r9", 0x16c88499, 0x2f03ebca);
  }

  lemma Key7Text()
    ensures Chars([18, 29, 5, 22, 13, 30, 2, 23]) == "ja9kd7zh"
  {}

  lemma Key7(p: Spelling) returns (q: Spelling)
    requires Spelled(p) && p.to == 0x2f03ebca
    ensures Spelled(q) && q == p.Then([0x97, 0x4b, 0x66, 0xf8, 0x57], [18, 29, 5, 22, 13, 30, 2, 23],
        "ja9kd7zh", 0x210ed32a)
  {
    hide Spelled, WordOf, Chars;
    SymbolWords();
    Key7Text();
    q := SpelledOn(p, [0x97, 0x4b, 0x66, 0xf8, 0x57], [18, 29, 5, 22, 13, 30, 2, 23],
        "ja9kd7zh", 0x1a0f15d5, 0x210ed32a);
  }

  lemma Key8Text()
    ensures Chars([14, 10, 12, 29, 9, 30, 29, 11]) == "w2vaf7at"
  {}

  lemma Key8(p: Spelling) returns (q: Spelling)
    requires Spelled(p) && p.to == 0x210ed32a
    ensures Spelled(q) && q == p.Then([0x72, 0x99, 0xd4, 0xfb, 0xab], [14, 10, 12, 29, 9, 30, 29, 11],
        "w2vaf7at", 0x178b3cd)
  {
    hide Spelled, WordOf, Chars;
    SymbolWords();
    Key8Text();
    q := SpelledOn(p, [0x72, 0x99, 0xd4, 0xfb, 0xab], [14, 10, 12, 29, 9, 30, 29, 11],
        "w2vaf7at", 0x3ee38eb0, 0x178b3cd);
  }

  lemma Key9Text()
    ensures Chars([4, 14, 6, 11, 7, 18, 3, 20]) == "ywxt8jr5"
  {}

  lemma Key9(p: Spelling) returns (q: Spelling)
    requires Spelled(p) && p.to == 0x178b3cd
    ensures Spelled(q) && q == p.Then([0x23, 0x8c, 0xb3, 0xc8, 0x74], [4, 14, 6, 11, 7, 18, 3, 20],
        "ywxt8jr5", 0x1ac45f12)
  {
    hide Spelled, WordOf, Chars;
    SymbolWords();
    Key9Text();
    q := SpelledOn(p, [0x23, 0x8c, 0xb3, 0xc8, 0x74], [4, 14, 6, 11, 7, 18, 3, 20], "ywxt8jr5", 0x3c03e5c, 0x1ac45f12);
  }

  lemma Key10Text()
    ensures Chars([18, 25, 12, 8, 4, 10, 29, 12]) == "jevgy2av"
  {}

  lemma Key10(p: Spelling) returns (q: Spelling)
    requires Spelled(p) && p.to == 0x1ac45f12
    ensures Spelled(q) && q == p.Then([0x96, 0x58, 0x82, 0x2b, 0xac], [18, 25, 12, 8, 4, 10, 29, 12],
        "jevgy2av", 0x2773c5c7)
  {
    hide Spelled, WordOf, Chars;
    SymbolWords();
    Key10Text();
    q := SpelledOn(p, [0x96, 0x58, 0x82, 0x2b, 0xac], [18, 25, 12, 8, 4, 10, 29, 12],
        "jevgy2av", 0x2a28abc0, 0x2773c5c7);
  }

  lemma KeySumText()
    ensures Chars([4, 1, 5, 22, 3, 2]) == "yp9krz"
  {}

  lemma KeySum()
    ensures Walked(0x2773c5c7, [4, 1, 5, 22, 3, 2], 0x1)
  {
    hide Walked, WordOf;
    SymbolWords();
    WalkedFour(0x2773c5c7, 4, 1, 5, 22);
    WalkedTwo(0x2bd2b8d0, 3, 2);
    WalkedOn(0x2773c5c7, [4, 1, 5, 22], 0x2bd2b8d0, [3, 2], 0x1);
    assert [4, 1, 5, 22] + [3, 2] == [4, 1, 5, 22, 3, 2];
  }

  lemma TypeUrlIs()
    ensures TypeUrlBytes() == [0x2f, 0x74, 0x6d, 0x2e, 0x50, 0x75, 0x62, 0x4b, 0x65, 0x79, 0x45, 0x64, 0x32,
        0x35, 0x35, 0x31, 0x39]
  {}

  lemma WrappedStart()
    ensures [0x0a, 17] + TypeUrlBytes() + [0x12, 0x22, 0x0a, 0x20] + [0x98, 0xab]
         == [0x0a, 0x11, 0x2f, 0x74, 0x6d] + [0x2e, 0x50, 0x75, 0x62, 0x4b] + [0x65, 0x79, 0x45, 0x64, 0x32] +
             [0x35, 0x35, 0x31, 0x39, 0x12] + [0x22, 0x0a, 0x20, 0x98, 0xab]
  {
    hide TypeUrlBytes;
    TypeUrlIs();
  }

  lemma Regrouped(a: seq<byte>, b: seq<byte>, c: seq<byte>)
    ensures a + (b + c) == a + b + c
  {}

  /** The envelope and the key, in fives. */
  lemma WrappedTestKey()
    ensures Wrapped(TEST_KEY)
         == [0x0a, 0x11, 0x2f, 0x74, 0x6d] + [0x2e, 0x50, 0x75, 0x62, 0x4b] + [0x65, 0x79, 0x45, 0x64, 0x32] +
             [0x35, 0x35, 0x31, 0x39, 0x12] + [0x22, 0x0a, 0x20, 0x98, 0xab] + [0x20, 0xd5, 0x73, 0xf1, 0x00] +
             [0xd7, 0xa2, 0xc5, 0x44, 0x65] + [0x97, 0x4b, 0x66, 0xf8, 0x57] + [0x72, 0x99, 0xd4, 0xfb, 0xab] +
             [0x23, 0x8c, 0xb3, 0xc8, 0x74] + [0x96, 0x58, 0x82, 0x2b, 0xac]
  {
    hide TypeUrlBytes;
    WrappedStart();
    var start: seq<byte> := [0x0a, 17] + TypeUrlBytes() + [0x12, 0x22, 0x0a, 0x20];
    var key: seq<byte> := [0x98, 0xab];
    Regrouped(start, key, [0x20, 0xd5, 0x73, 0xf1, 0x00]);
    key := key + [0x20, 0xd5, 0x73, 0xf1, 0x00];
    Regrouped(start, key, [0xd7, 0xa2, 0xc5, 0x44, 0x65]);
    key := key + [0xd7, 0xa2, 0xc5, 0x44, 0x65];
    Regrouped(start, key, [0x97, 0x4b, 0x66, 0xf8, 0x57]);
    key := key + [0x97, 0x4b, 0x66, 0xf8, 0x57];
    Regrouped(start, key, [0x72, 0x99, 0xd4, 0xfb, 0xab]);
    key := key + [0x72, 0x99, 0xd4, 0xfb, 0xab];
    Regrouped(start, key, [0x23, 0x8c, 0xb3, 0xc8, 0x74]);
    key := key + [0x23, 0x8c, 0xb3, 0xc8, 0x74];
    Regrouped(start, key, [0x96, 0x58, 0x82, 0x2b, 0xac]);
  }

  /** The published key string: envelope, prefix, regrouping, checksum and alphabet together. */
  lemma TestKeyString()
    ensures KeyString(TEST_KEY)
         == "gpub1" + "pggj7ard" + "9eg82cjt" + "v4u52epj" + "x56nzwgj" + "yg9zpx9t" + "yr2h8ugq" + "673v23r9" +
             "ja9kd7zh" + "w2vaf7at" + "ywxt8jr5" + "jevgy2av" + "yp9krz"
  {
    hide Spelled, Walked, Chars, Wrapped;
    KeyStart();
    KeySum();
    KeySumText();
    var p := NothingSpelled("gpub", 0x17772dfb);
    p := Key0(p);
    assert p.bytes == [0x0a, 0x11, 0x2f, 0x74, 0x6d] && p.text == "gpub1" + "pggj7ard";
    p := Key1(p);
    p := Key2(p);
    p := Key3(p);
    p := Key4(p);
    p := Key5(p);
    p := Key6(p);
    p := Key7(p);
    p := Key8(p);
    p := Key9(p);
    p := Key10(p);
    EncodedSpelled(p, [4, 1, 5, 22, 3, 2], "yp9krz");
    WrappedTestKey();
  }
}
