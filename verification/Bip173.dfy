/** Two strings BIP-173 lists as valid, worked out: an anchor outside the model for its constants, its
alphabet and the order of everything it puts together. */
module Bip173 {
  import opened Wrappers
  import opened Bits
  import opened Bech32
  import opened Walk

  // ---- the shortest ----

  lemma ShortStart()
    ensures Walked(0x1, Expanded("a"), 0x8c01)
  {
    hide Walked, WordOf;
    AsciiLayout("a");
    assert Layout("a") == [97];
    SymbolWords();
    WalkedTwo(0x1, 3, 0);
    WalkedOne(0x460, 1);
    WalkedOn(0x1, [3, 0], 0x460, [1], 0x8c01);
    assert Expanded("a") == [3, 0] + [1];
  }

  lemma ShortSumText()
    ensures Chars([10, 28, 25, 31, 20, 31]) == "2uel5l"
  {}

  lemma ShortSum()
    ensures Walked(0x8c01, [10, 28, 25, 31, 20, 31], 0x1)
  {
    hide Walked, WordOf;
    SymbolWords();
    WalkedFour(0x8c01, 10, 28, 25, 31);
    WalkedTwo(0x2f84386, 20, 31);
    WalkedOn(0x8c01, [10, 28, 25, 31], 0x2f84386, [20, 31], 0x1);
    assert [10, 28, 25, 31] + [20, 31] == [10, 28, 25, 31, 20, 31];
  }

  /** What the encoder writes for the prefix "a" and no data. */
  lemma StandardStringEncoded()
    ensures Encoded("a", []) == "a12uel5l"
  {
    hide Spelled, Walked, Chars, Encoded;
    ShortStart();
    ShortSum();
    ShortSumText();
    var p := NothingSpelled("a", 0x8c01);
    EncodedSpelled(p, [10, 28, 25, 31, 20, 31], "2uel5l");
    assert "a" + "1" + "2uel5l" == "a12uel5l";
  }

  /** And so a string the decoder accepts. */
  lemma StandardString()
    ensures Decoded("a", "a12uel5l") == Some([])
  {
    hide Decoded, Encoded;
    StandardStringEncoded();
    DecodedIff("a", "a12uel5l", []);
  }

  // ---- the whole alphabet, in order ----

  lemma AlphabetLayout()
    ensures Layout("abcdef") == [97, 98, 99, 100, 101, 102]
  {
    AsciiLayout("abcdef");
  }

  lemma AlphabetPrefix()
    ensures Expanded("abcdef") == [3, 3, 3, 3, 3, 3, 0, 1, 2, 3, 4, 5, 6]
  {
    hide Layout;
    AlphabetLayout();
  }

  lemma AlphabetStart()
    ensures Walked(0x1, Expanded("abcdef"), 0x3be80e6a)
  {
    hide Walked, WordOf, Expanded;
    AlphabetPrefix();
    SymbolWords();
    EightWalked(0x1, [3, 3, 3, 3, 3, 3, 0, 1], 0x118c63, 0x3dc7154c);
    WalkedFour(0x3dc7154c, 2, 3, 4, 5);
    WalkedOn(0x1, [3, 3, 3, 3, 3, 3, 0, 1], 0x3dc7154c, [2, 3, 4, 5], 0x266635a8);
    WalkedOne(0x266635a8, 6);
    WalkedOn(0x1, [3, 3, 3, 3, 3, 3, 0, 1] + [2, 3, 4, 5], 0x266635a8, [6], 0x3be80e6a);
    assert [3, 3, 3, 3, 3, 3, 0, 1] + [2, 3, 4, 5] + [6] == [3, 3, 3, 3, 3, 3, 0, 1, 2, 3, 4, 5, 6];
  }

  lemma Alphabet0Text()
    ensures Chars([0, 1, 2, 3, 4, 5, 6, 7]) == "qpzry9x8"
  {}

  lemma Alphabet0(p: Spelling) returns (q: Spelling)
    requires Spelled(p) && p.to == 0x3be80e6a
    ensures Spelled(q) && q == p.Then([0x00, 0x44, 0x32, 0x14, 0xc7], [0, 1, 2, 3, 4, 5, 6, 7], "qpzry9x8", 0x11e88668)
  {
    hide Spelled, WordOf, Chars;
    SymbolWords();
    Alphabet0Text();
    q := SpelledOn(p, [0x00, 0x44, 0x32, 0x14, 0xc7], [0, 1, 2, 3, 4, 5, 6, 7], "qpzry9x8", 0xc815781, 0x11e88668);
  }

  lemma Alphabet1Text()
    ensures Chars([8, 9, 10, 11, 12, 13, 14, 15]) == "gf2tvdw0"
  {}

  lemma Alphabet1(p: Spelling) returns (q: Spelling)
    requires Spelled(p) && p.to == 0x11e88668
    ensures Spelled(q) && q == p.Then([0x42, 0x54, 0xb6, 0x35, 0xcf], [8, 9, 10, 11, 12, 13, 14, 15],
        "gf2tvdw0", 0x31223f8a)
  {
    hide Spelled, WordOf, Chars;
    SymbolWords();
    Alphabet1Text();
    q := SpelledOn(p, [0x42, 0x54, 0xb6, 0x35, 0xcf], [8, 9, 10, 11, 12, 13, 14, 15],
        "gf2tvdw0", 0x2f8ccedd, 0x31223f8a);
  }

  lemma Alphabet2Text()
    ensures Chars([16, 17, 18, 19, 20, 21, 22, 23]) == "s3jn54kh"
  {}

  lemma Alphabet2(p: Spelling) returns (q: Spelling)
    requires Spelled(p) && p.to == 0x31223f8a
    ensures Spelled(q) && q == p.Then([0x84, 0x65, 0x3a, 0x56, 0xd7], [16, 17, 18, 19, 20, 21, 22, 23],
        "s3jn54kh", 0x297c48e0)
  {
    hide Spelled, WordOf, Chars;
    SymbolWords();
    Alphabet2Text();
    q := SpelledOn(p, [0x84, 0x65, 0x3a, 0x56, 0xd7], [16, 17, 18, 19, 20, 21, 22, 23],
        "s3jn54kh", 0x28166541, 0x297c48e0);
  }

  lemma Alphabet3Text()
    ensures Chars([24, 25, 26, 27, 28, 29, 30, 31]) == "ce6mua7l"
  {}

  lemma Alphabet3(p: Spelling) returns (q: Spelling)
    requires Spelled(p) && p.to == 0x297c48e0
    ensures Spelled(q) && q == p.Then([0xc6, 0x75, 0xbe, 0x77, 0xdf], [24, 25, 26, 27, 28, 29, 30, 31],
        "ce6mua7l", 0x1a0d3656)
  {
    hide Spelled, WordOf, Chars;
    SymbolWords();
    Alphabet3Text();
    q := SpelledOn(p, [0xc6, 0x75, 0xbe, 0x77, 0xdf], [24, 25, 26, 27, 28, 29, 30, 31],
        "ce6mua7l", 0x3eea4538, 0x1a0d3656);
  }

  lemma AlphabetSumText()
    ensures Chars([27, 0, 0, 0, 6, 14]) == "mqqqxw"
  {}

  lemma AlphabetSum()
    ensures Walked(0x1a0d3656, [27, 0, 0, 0, 6, 14], 0x1)
  {
    hide Walked, WordOf;
    SymbolWords();
    WalkedFour(0x1a0d3656, 27, 0, 0, 0);
    WalkedTwo(0xe8d5418, 6, 14);
    WalkedOn(0x1a0d3656, [27, 0, 0, 0], 0xe8d5418, [6, 14], 0x1);
    assert [27, 0, 0, 0] + [6, 14] == [27, 0, 0, 0, 6, 14];
  }

  /** What BIP-173 lists as valid: the 32 symbols in order are the 32 characters in order, after a prefix of
      several characters. */
  lemma AlphabetString()
    ensures Encoded("abcdef", [0x00, 0x44, 0x32, 0x14, 0xc7] + [0x42, 0x54, 0xb6, 0x35, 0xcf] +
        [0x84, 0x65, 0x3a, 0x56, 0xd7] + [0xc6, 0x75, 0xbe, 0x77, 0xdf])
         == "abcdef1" + "qpzry9x8" + "gf2tvdw0" + "s3jn54kh" + "ce6mua7l" + "mqqqxw"
  {
    hide Spelled, Walked, Chars;
    AlphabetStart();
    AlphabetSum();
    AlphabetSumText();
    var p := NothingSpelled("abcdef", 0x3be80e6a);
    p := Alphabet0(p);
    assert p.bytes == [0x00, 0x44, 0x32, 0x14, 0xc7] && p.text == "abcdef1" + "qpzry9x8";
    p := Alphabet1(p);
    p := Alphabet2(p);
    p := Alphabet3(p);
    EncodedSpelled(p, [27, 0, 0, 0, 6, 14], "mqqqxw");
  }
}
