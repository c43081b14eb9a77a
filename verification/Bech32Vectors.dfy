/** The strings that BIP-173 (section "Test vectors") publishes, stated of the
    encoder and the decoder: they fix the alphabet, the generators, the prefix's
    expansion and the final constant together. */
module Bech32Vectors {
  import opened Prelude
  import opened Digits
  import opened Text
  import opened Regroup
  import opened Checksum
  import opened Bech32

  // ------------------------------------------------------------------
  // Checksums of given symbols

  /** A list of states, each the step from the one before, is what the fold
      passes through. */
  lemma {:induction false} Trace(states: seq<bv32>, values: seq<Word>)
    requires |states| == |values| + 1
    requires forall i :: 0 <= i < |values| ==> Step(states[i], Symbol(values[i])) == states[i + 1]
    ensures Fold(states[0], values) == states[|values|]
    decreases |values|
  {
    hide Step, Symbol;
    if values != [] {
      Trace(states[1..], values[1..]);
    }
  }

  lemma PrefixSteps()
    ensures Step(0x1, Symbol(3)) == 0x23 && Step(0x23, Symbol(3)) == 0x463
    ensures Step(0x463, Symbol(3)) == 0x8c63 && Step(0x8c63, Symbol(3)) == 0x118c63
    ensures Step(0x118c63, Symbol(3)) == 0x2318c63 && Step(0x2318c63, Symbol(3)) == 0x3d5bdbd1
    ensures Step(0x3d5bdbd1, Symbol(0)) == 0x4dcbcd9 && Step(0x4dcbcd9, Symbol(1)) == 0x3dc7154c
    ensures Step(0x3dc7154c, Symbol(2)) == 0x17456f7b && Step(0x17456f7b, Symbol(3)) == 0x8d50561
    ensures Step(0x8d50561, Symbol(4)) == 0x401b5de && Step(0x401b5de, Symbol(5)) == 0x266635a8
    ensures Step(0x266635a8, Symbol(6)) == 0x3be80e6a
  {}

  lemma PrefixFolds()
    ensures Fold(0x1, [3, 3, 3, 3, 3, 3, 0, 1, 2, 3, 4, 5, 6]) == 0x3be80e6a
  {
    hide Step, Symbol, Fold;
    PrefixSteps();
    var values: seq<Word> := [3, 3, 3, 3, 3, 3, 0, 1, 2, 3, 4, 5, 6];
    var states: seq<bv32> := [
      0x1, 0x23, 0x463, 0x8c63, 0x118c63, 0x2318c63, 0x3d5bdbd1, 0x4dcbcd9, 0x3dc7154c, 0x17456f7b, 0x8d50561,
      0x401b5de, 0x266635a8, 0x3be80e6a];
    Trace(states, values);
  }

  lemma FirstHalfSteps()
    ensures Step(0x3be80e6a, Symbol(0)) == 0xf9cd266 && Step(0xf9cd266, Symbol(1)) == 0x30018ce4
    ensures Step(0x30018ce4, Symbol(2)) == 0x1767cdec && Step(0x1767cdec, Symbol(3)) == 0xc815781
    ensures Step(0xc815781, Symbol(4)) == 0x28db67b3 && Step(0x28db67b3, Symbol(5)) == 0x2fd98d2c
    ensures Step(0x2fd98d2c, Symbol(6)) == 0x12be0710 && Step(0x12be0710, Symbol(7)) == 0x11e88668
    ensures Step(0x11e88668, Symbol(8)) == 0x52fed5 && Step(0x52fed5, Symbol(9)) == 0xa5fdaa9
    ensures Step(0xa5fdaa9, Symbol(10)) == 0x2e301b62 && Step(0x2e301b62, Symbol(11)) == 0x2f8ccedd
    ensures Step(0x2f8ccedd, Symbol(12)) == 0x1816793a && Step(0x1816793a, Symbol(13)) == 0x212c0d6a
    ensures Step(0x212c0d6a, Symbol(14)) == 0xf95cffd && Step(0xf95cffd, Symbol(15)) == 0x31223f8a
  {}

  lemma FirstHalfFolds()
    ensures Fold(0x3be80e6a, [0, 1, 2, 3, 4, 5, 6, 7, 8, 9, 10, 11, 12, 13, 14, 15]) == 0x31223f8a
  {
    hide Step, Symbol, Fold;
    FirstHalfSteps();
    var values: seq<Word> := [0, 1, 2, 3, 4, 5, 6, 7, 8, 9, 10, 11, 12, 13, 14, 15];
    var states: seq<bv32> := [
      0x3be80e6a, 0xf9cd266, 0x30018ce4, 0x1767cdec, 0xc815781, 0x28db67b3, 0x2fd98d2c, 0x12be0710, 0x11e88668,
      0x52fed5, 0xa5fdaa9, 0x2e301b62, 0x2f8ccedd, 0x1816793a, 0x212c0d6a, 0xf95cffd, 0x31223f8a];
    Trace(states, values);
  }

  lemma SecondHalfSteps()
    ensures Step(0x31223f8a, Symbol(16)) == 0x3311a03e && Step(0x3311a03e, Symbol(17)) == 0xe08010d
    ensures Step(0xe08010d, Symbol(18)) == 0x29be197 && Step(0x29be197, Symbol(19)) == 0x28166541
    ensures Step(0x28166541, Symbol(20)) == 0x3679d37d && Step(0x3679d37d, Symbol(21)) == 0x556e704
    ensures Step(0x556e704, Symbol(22)) == 0xc8c6efb && Step(0xc8c6efb, Symbol(23)) == 0x297c48e0
    ensures Step(0x297c48e0, Symbol(24)) == 0x1b3c6751 && Step(0x1b3c6751, Symbol(25)) == 0x3f0597ac
    ensures Step(0x3f0597ac, Symbol(26)) == 0x347f64d1 && Step(0x347f64d1, Symbol(27)) == 0x3eea4538
    ensures Step(0x3eea4538, Symbol(28)) == 0x9853657 && Step(0x9853657, Symbol(29)) == 0x2e07d307
    ensures Step(0x2e07d307, Symbol(30)) == 0x2975c268 && Step(0x2975c268, Symbol(31)) == 0x1a0d3656
  {}

  lemma SecondHalfFolds()
    ensures Fold(0x31223f8a, [16, 17, 18, 19, 20, 21, 22, 23, 24, 25, 26, 27, 28, 29, 30, 31]) == 0x1a0d3656
  {
    hide Step, Symbol, Fold;
    SecondHalfSteps();
    var values: seq<Word> := [16, 17, 18, 19, 20, 21, 22, 23, 24, 25, 26, 27, 28, 29, 30, 31];
    var states: seq<bv32> := [
      0x31223f8a, 0x3311a03e, 0xe08010d, 0x29be197, 0x28166541, 0x3679d37d, 0x556e704, 0xc8c6efb, 0x297c48e0,
      0x1b3c6751, 0x3f0597ac, 0x347f64d1, 0x3eea4538, 0x9853657, 0x2e07d307, 0x2975c268, 0x1a0d3656];
    Trace(states, values);
  }

  lemma SumSteps()
    ensures Step(0x1a0d3656, Symbol(27)) == 0x192fb74e && Step(0x192fb74e, Symbol(0)) == 0x615c3e7
    ensures Step(0x615c3e7, Symbol(0)) == 0x1f82a53f && Step(0x1f82a53f, Symbol(0)) == 0xe8d5418
    ensures Step(0xe8d5418, Symbol(6)) == 0x12314323 && Step(0x12314323, Symbol(14)) == 0x1
  {}

  lemma SumFolds()
    ensures Fold(0x1a0d3656, [27, 0, 0, 0, 6, 14]) == 0x1
  {
    hide Step, Symbol, Fold;
    SumSteps();
    var values: seq<Word> := [27, 0, 0, 0, 6, 14];
    var states: seq<bv32> := [
      0x1a0d3656, 0x192fb74e, 0x615c3e7, 0x1f82a53f, 0xe8d5418, 0x12314323, 0x1];
    Trace(states, values);
  }

  lemma ShortSteps()
    ensures Step(0x1, Symbol(3)) == 0x23 && Step(0x23, Symbol(0)) == 0x460
    ensures Step(0x460, Symbol(1)) == 0x8c01 && Step(0x8c01, Symbol(10)) == 0x11802a
    ensures Step(0x11802a, Symbol(28)) == 0x230055c && Step(0x230055c, Symbol(25)) == 0x3d6afc2b
    ensures Step(0x3d6afc2b, Symbol(31)) == 0x2f84386 && Step(0x2f84386, Symbol(20)) == 0x24622766
    ensures Step(0x24622766, Symbol(31)) == 0x1
  {}

  lemma ShortFolds()
    ensures Fold(0x1, [3, 0, 1, 10, 28, 25, 31, 20, 31]) == 0x1
  {
    hide Step, Symbol, Fold;
    ShortSteps();
    var values: seq<Word> := [3, 0, 1, 10, 28, 25, 31, 20, 31];
    var states: seq<bv32> := [
      0x1, 0x23, 0x460, 0x8c01, 0x11802a, 0x230055c, 0x3d6afc2b, 0x2f84386, 0x24622766, 0x1];
    Trace(states, values);
  }

  // ------------------------------------------------------------------
  // Bytes and words

  /** The twenty bytes whose five-bit words count from 0 to 31. */
  const COUNTING: Bytes := [
    0x00, 0x44, 0x32, 0x14, 0xC7, 0x42, 0x54, 0xB6, 0x35, 0xCF,
    0x84, 0x65, 0x3A, 0x56, 0xD7, 0xC6, 0x75, 0xBE, 0x77, 0xDF]

  const UPWARD: seq<Word> := [
    0, 1, 2, 3, 4, 5, 6, 7, 8, 9, 10, 11, 12, 13, 14, 15, 16, 17, 18, 19, 20, 21, 22, 23, 24, 25, 26, 27, 28, 29, 30, 31]

  const NUMBER: nat := 0x443214_C74254B6_35CF8465_3A56D7C6_75BE77DF

  /** Running values of a number's leading digits. */
  lemma {:induction false} Horner(b: nat, s: seq<int>, sums: seq<nat>)
    requires InBase(b, s) && |sums| == |s| + 1 && sums[0] == 0
    requires forall i :: 0 <= i < |s| ==> sums[i + 1] == sums[i] * b + s[i]
    ensures Value(b, s) == sums[|s|]
  {
    if s != [] {
      Horner(b, s[..|s| - 1], sums[..|s|]);
    }
  }

  lemma CountingValue()
    ensures Value(256, COUNTING) == NUMBER
  {
    hide Value;
    var sums: seq<nat> := [
      0, 0, 0x44, 0x4432, 0x443214, 0x443214C7, 0x44_3214C742, 0x4432_14C74254, 0x443214_C74254B6,
      0x443214C7_4254B635, 0x44_3214C742_54B635CF, 0x4432_14C74254_B635CF84, 0x443214_C74254B6_35CF8465,
      0x443214C7_4254B635_CF84653A, 0x44_3214C742_54B635CF_84653A56, 0x4432_14C74254_B635CF84_653A56D7,
      0x443214_C74254B6_35CF8465_3A56D7C6, 0x443214C7_4254B635_CF84653A_56D7C675,
      0x44_3214C742_54B635CF_84653A56_D7C675BE, 0x4432_14C74254_B635CF84_653A56D7_C675BE77,
      0x443214_C74254B6_35CF8465_3A56D7C6_75BE77DF];
    Horner(256, COUNTING, sums);
  }

  lemma UpwardValue()
    ensures Value(32, UPWARD) == NUMBER
  {
    hide Value;
    var sums: seq<nat> := [
      0, 0, 0x1, 0x22, 0x443, 0x8864, 0x110C85, 0x22190A6, 0x443214C7, 0x8_864298E8, 0x110_C8531D09, 0x2219_0A63A12A,
      0x44321_4C74254B, 0x886429_8E84A96C, 0x110C8531_D0952D8D, 0x2_2190A63A_12A5B1AE, 0x44_3214C742_54B635CF,
      0x886_4298E84A_96C6B9F0, 0x110C8_531D0952_D8D73E11, 0x22190A_63A12A5B_1AE7C232, 0x443214C_74254B63_5CF84653,
      0x8864298E_84A96C6B_9F08CA74, 0x11_0C8531D0_952D8D73_E1194E95, 0x221_90A63A12_A5B1AE7C_2329D2B6,
      0x4432_14C74254_B635CF84_653A56D7, 0x88642_98E84A96_C6B9F08C_A74ADAF8, 0x110C853_1D0952D8_D73E1194_E95B5F19,
      0x22190A63_A12A5B1A_E7C2329D_2B6BE33A, 0x4_43214C74_254B635C_F84653A5_6D7C675B,
      0x88_64298E84_A96C6B9F_08CA74AD_AF8CEB7C, 0x110C_8531D095_2D8D73E1_194E95B5_F19D6F9D,
      0x22190_A63A12A5_B1AE7C23_29D2B6BE_33ADF3BE, 0x443214_C74254B6_35CF8465_3A56D7C6_75BE77DF];
    Horner(32, UPWARD, sums);
  }

  lemma CountingWords()
    ensures Words(COUNTING) == UPWARD
  {
    hide Value, ToDigits;
    CountingValue();
    UpwardValue();
    DigitsOfValue(32, UPWARD);
    Pow2Table();
    assert Up(NUMBER, 0) == NUMBER;
  }

  lemma SumFound(hrp: string, words: seq<Word>, sum: seq<Word>)
    requires |sum| == 6 && Polymod(Expand(hrp) + words + sum) == 1
    ensures ChecksumOf(Expand(hrp) + words) == sum
  {
    hide Polymod, ChecksumOf, Expand;
    ChecksumExact(Expand(hrp) + words, sum);
  }

  const LAST: seq<Word> := [27, 0, 0, 0, 6, 14]

  lemma UpwardFolds()
    ensures Fold(0x3be80e6a, UPWARD) == 0x1a0d3656
  {
    hide Fold;
    assert UPWARD[..16] == [0, 1, 2, 3, 4, 5, 6, 7, 8, 9, 10, 11, 12, 13, 14, 15];
    assert UPWARD[16..] == [16, 17, 18, 19, 20, 21, 22, 23, 24, 25, 26, 27, 28, 29, 30, 31];
    FirstHalfFolds();
    SecondHalfFolds();
    hide UPWARD;
    FoldSplit(0x3be80e6a, UPWARD[..16], UPWARD[16..]);
    assert UPWARD == UPWARD[..16] + UPWARD[16..];
  }

  lemma LongPolymod()
    ensures Polymod(Expand("abcdef") + UPWARD + LAST) == 1
  {
    hide Fold, UPWARD;
    assert Expand("abcdef") == [3, 3, 3, 3, 3, 3, 0, 1, 2, 3, 4, 5, 6];
    PrefixFolds();
    UpwardFolds();
    SumFolds();
    FoldSplit(1, Expand("abcdef") + UPWARD, LAST);
    FoldSplit(1, Expand("abcdef"), UPWARD);
  }

  lemma UpwardAt(i: nat)
    requires i < 32
    ensures UPWARD[i] == i
  {
    if i < 8 {} else if i < 16 {} else if i < 24 {} else {}
  }

  lemma LastLetters()
    ensures Letters(LAST) == "mqqqxw"
  {
    assert Letter(27) == 'm' && Letter(0) == 'q' && Letter(6) == 'x' && Letter(14) == 'w';
  }

  lemma UpwardLetters()
    ensures Letters(UPWARD) == CHARSET
  {
    var s := Letters(UPWARD);
    assert |CHARSET| == 32;
    hide CHARSET, UPWARD;
    forall i | 0 <= i < 32 ensures s[i] == CHARSET[i] {
      UpwardAt(i);
    }
  }

  lemma LettersJoin(a: seq<Word>, b: seq<Word>)
    ensures Letters(a + b) == Letters(a) + Letters(b)
  {
    hide Letter;
  }

  lemma LongEncoded()
    ensures Encode("abcdef", COUNTING) == "abcdef" + "1" + (CHARSET + "mqqqxw")
  {
    hide Polymod, ChecksumOf, Expand, Letters, Words, COUNTING, UPWARD, CHARSET;
    CountingWords();
    LongPolymod();
    SumFound("abcdef", UPWARD, LAST);
    LettersJoin(UPWARD, LAST);
    UpwardLetters();
    LastLetters();
  }

  /** What is encoded behind a short ASCII prefix is decoded. */
  lemma ShortEnough(hrp: string, data: Bytes)
    requires hrp != "" && Ascii(hrp) && |hrp| + |data| <= 1000
    ensures Decode(Encode(hrp, data)) == Some(Decoding(hrp, data))
  {
    hide ChecksumOf, Expand, Letters, Words, Decode, Utf8;
    var words := Words(data) + ChecksumOf(Expand(hrp) + Words(data));
    LettersPlain(words);
    AsciiLength(hrp + "1" + Letters(words));
    DecodeExact(Encode(hrp, data), hrp, data);
  }

  /** The published string and the bytes whose words count from 0 to 31: every
      letter of the alphabet, in its place. */
  lemma LongString()
    ensures Encode("abcdef", COUNTING) == "abcdef1qpzry9x8gf2tvdw0s3jn54khce6mua7lmqqqxw"
    ensures Decode("abcdef1qpzry9x8gf2tvdw0s3jn54khce6mua7lmqqqxw") == Some(Decoding("abcdef", COUNTING))
  {
    hide Encode, Decode, COUNTING, CHARSET;
    LongEncoded();
    LongText();
    CountingLength();
    ShortEnough("abcdef", COUNTING);
  }

  lemma CountingLength()
    ensures |COUNTING| == 20
  {}

  const TEXT: string := "abcdef1qpzry9x8gf2tvdw0s3jn54khce6mua7lmqqqxw"

  lemma TextAt(i: nat)
    requires i < 45
    ensures |TEXT| == 45 && |CHARSET| == 32
    ensures TEXT[i] == if i < 7 then "abcdef1"[i] else if i < 39 then CHARSET[i - 7] else "mqqqxw"[i - 39]
  {
    if i < 7 {} else if i < 15 {} else if i < 23 {} else if i < 31 {} else if i < 39 {} else {}
  }

  lemma LongText()
    ensures "abcdef" + "1" + (CHARSET + "mqqqxw") == TEXT
  {
    hide TEXT, CHARSET;
    TextAt(0);
    assert "abcdef" + "1" == "abcdef1";
    var whole := "abcdef1" + (CHARSET + "mqqqxw");
    forall i | 0 <= i < 45 ensures whole[i] == TEXT[i] { TextAt(i); }
  }

  /** The shortest published string: no data, and a checksum that ends it. */
  lemma ShortString()
    ensures Encode("a", []) == "a12uel5l" && Decode("a12uel5l") == Some(Decoding("a", []))
  {
    hide Decode;
    ShortEncoded();
    ShortEnough("a", []);
  }

  const ENDING: seq<Word> := [10, 28, 25, 31, 20, 31]

  lemma EndingLetters()
    ensures Letters(ENDING) == "2uel5l"
  {
    assert Letter(10) == '2' && Letter(28) == 'u' && Letter(25) == 'e' && Letter(31) == 'l' && Letter(20) == '5';
  }

  lemma ShortEncoded()
    ensures Encode("a", []) == "a12uel5l"
  {
    hide Polymod, ChecksumOf, Expand, Letters, CHARSET, Fold;
    var none: Bytes, words: seq<Word> := [], [];
    assert Words(none) == words;
    ShortPolymod();
    SumFound("a", words, ENDING);
    EndingLetters();
    assert words + ENDING == ENDING;
  }

  lemma ShortPolymod()
    ensures Polymod(Expand("a") + [] + ENDING) == 1
  {
    hide Fold;
    assert Expand("a") + [] + ENDING == [3, 0, 1, 10, 28, 25, 31, 20, 31];
    ShortFolds();
  }
}
