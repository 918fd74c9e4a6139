/** When a changed word and a changed checksum cancel. Changing the last word of a checksummed
    message by w changes its checksum by thirty-two register steps of w. If both changes lie
    within four adjacent bytes, the checksum in front of the word, exactly two pairs of changes
    cancel. Each case is a linear system in the eight bits of one byte, solved over a basis. */
module CrcCancel {
  import opened Words
  import opened Crc32c

  function Step32(c: bv32): bv32 {
    Step8(Step8(Step8(Step8(c))))
  }

  /** The two pairs: what is xored to the checksum, and what is xored to the word. */
  predicate Cancelling(crc: bv32, word: bv32) {
    || (crc == 0x8031_0000 && word == 0xD6CB)
    || (crc == 0xAE00_0000 && word == 0x2_E0C1)
  }

  // ---------- A changed word changes the checksum linearly ----------

  lemma Step32Xor(a: bv32, b: bv32)
    ensures Step32(Xor(a, b)) == Xor(Step32(a), Step32(b))
  {
    hide Xor, Step8;
    Step8Xor(a, b);
    Step8Xor(Step8(a), Step8(b));
    Step8Xor(Step8(Step8(a)), Step8(Step8(b)));
    Step8Xor(Step8(Step8(Step8(a))), Step8(Step8(Step8(b))));
  }

  lemma Step8Injective(a: bv32, b: bv32)
    requires Step8(a) == Step8(b)
    ensures a == b
  {
    hide Steps, Step8;
    Steps8(a);
    Steps8(b);
    StepsInjective(8, a, b);
  }

  lemma Step32Injective(a: bv32, b: bv32)
    requires Step32(a) == Step32(b)
    ensures a == b
  {
    hide Step8;
    Step8Injective(Step8(Step8(Step8(a))), Step8(Step8(Step8(b))));
    Step8Injective(Step8(Step8(a)), Step8(Step8(b)));
    Step8Injective(Step8(a), Step8(b));
    Step8Injective(a, b);
  }

  lemma WordFed(c: bv32, w: bv32)
    ensures Feed(c, Bytes32(w)) == Step32(Xor(c, w))
  {
    hide Feed, Bytes32, Step8, Xor;
    FeedWord(c, w);
  }

  /** Two last words change the checksum by thirty-two steps of their difference. */
  lemma CrcOfWord(data: seq<byte>, v: bv32, w: bv32)
    ensures Xor(Crc(data + Bytes32(v)), Crc(data + Bytes32(w))) == Step32(Xor(v, w))
  {
    hide Xor, Step32, Feed, Bytes32;
    var c := Feed(INIT, data);
    FeedAppend(INIT, data, Bytes32(v));
    FeedAppend(INIT, data, Bytes32(w));
    WordFed(c, v);
    WordFed(c, w);
    Step32Xor(Xor(c, v), Xor(c, w));
    XorCommutative(c, v);
    XorCommutative(c, w);
    XorShuffle(v, w, c);
    XorShuffle(Feed(c, Bytes32(v)), Feed(c, Bytes32(w)), INIT);
  }

  // ---------- Eight bits over a basis ----------

  function Pick(bit: bool, word: bv32): bv32 {
    if bit then word else 0
  }

  /** The words picked by the low eight bits of x, xored. */
  function Eight(x: bv32, w0: bv32, w1: bv32, w2: bv32, w3: bv32, w4: bv32, w5: bv32, w6: bv32, w7: bv32): bv32 {
    Xor(Pick(x & 0x01 != 0, w0), Xor(Pick(x & 0x02 != 0, w1), Xor(Pick(x & 0x04 != 0, w2),
    Xor(Pick(x & 0x08 != 0, w3), Xor(Pick(x & 0x10 != 0, w4), Xor(Pick(x & 0x20 != 0, w5),
    Xor(Pick(x & 0x40 != 0, w6), Pick(x & 0x80 != 0, w7))))))))
  }

  lemma StepPick(bit: bool, word: bv32)
    ensures Step32(Pick(bit, word)) == Pick(bit, Step32(word))
  {
    hide Step8;
    assert Step8(0) == 0 by { Step8OfHigh(0); }
  }

  lemma StepXorPick(bit: bool, word: bv32, rest: bv32)
    ensures Step32(Xor(Pick(bit, word), rest)) == Xor(Pick(bit, Step32(word)), Step32(rest))
  {
    hide Step32, Xor, Pick;
    Step32Xor(Pick(bit, word), rest);
    StepPick(bit, word);
  }

  /** Steps of a combination combine the steps. */
  lemma Linear(x: bv32, w0: bv32, w1: bv32, w2: bv32, w3: bv32, w4: bv32, w5: bv32, w6: bv32, w7: bv32)
    ensures Step32(Eight(x, w0, w1, w2, w3, w4, w5, w6, w7))
      == Eight(x, Step32(w0), Step32(w1), Step32(w2), Step32(w3), Step32(w4), Step32(w5), Step32(w6), Step32(w7))
  {
    hide Step32, Xor, Pick;
    var r7 := Pick(x & 0x80 != 0, w7);
    var r6 := Xor(Pick(x & 0x40 != 0, w6), r7);
    var r5 := Xor(Pick(x & 0x20 != 0, w5), r6);
    var r4 := Xor(Pick(x & 0x10 != 0, w4), r5);
    var r3 := Xor(Pick(x & 0x08 != 0, w3), r4);
    var r2 := Xor(Pick(x & 0x04 != 0, w2), r3);
    var r1 := Xor(Pick(x & 0x02 != 0, w1), r2);
    StepPick(x & 0x80 != 0, w7);
    StepXorPick(x & 0x40 != 0, w6, r7);
    StepXorPick(x & 0x20 != 0, w5, r6);
    StepXorPick(x & 0x10 != 0, w4, r5);
    StepXorPick(x & 0x08 != 0, w3, r4);
    StepXorPick(x & 0x04 != 0, w2, r3);
    StepXorPick(x & 0x02 != 0, w1, r2);
    StepXorPick(x & 0x01 != 0, w0, r1);
  }

  lemma Chain(a: bv32, b: bv32, c: bv32, d: bv32, e: bv32)
    requires Step8(a) == b && Step8(b) == c && Step8(c) == d && Step8(d) == e
    ensures Step32(a) == e
  {
  }

  // ---------- The word changed in one byte ----------

  /** A word changed in its low byte. */
  function One(x: bv32): bv32 {
    Eight(x, 0x1, 0x2, 0x4, 0x8,
             0x10, 0x20, 0x40, 0x80)
  }

  function OneStepped(x: bv32): bv32 {
    Eight(x, 0xDD45_AAB8, 0xBF67_2381, 0x7B22_31F3, 0xF644_63E6,
             0xE964_B13D, 0xD725_148B, 0xABA6_5FE7, 0x52A0_C93F)
  }

  lemma OneFirst()
    ensures Step32(0x1) == 0xDD45_AAB8
    ensures Step32(0x2) == 0xBF67_2381
    ensures Step32(0x4) == 0x7B22_31F3
    ensures Step32(0x8) == 0xF644_63E6
  {
    hide Step32;
    Chain(0x1, 0xF26B_8303, 0x13A2_9877, 0xA541_927E, 0xDD45_AAB8);
    Chain(0x2, 0xE13B_70F7, 0x2745_30EE, 0x4F6F_520D, 0xBF67_2381);
    Chain(0x4, 0xC79A_971F, 0x4E8A_61DC, 0x9EDE_A41A, 0x7B22_31F3);
    Chain(0x8, 0x8AD9_58CF, 0x9D14_C3B8, 0x3851_3EC5, 0xF644_63E6);
  }

  lemma OneLast()
    ensures Step32(0x10) == 0xE964_B13D
    ensures Step32(0x20) == 0xD725_148B
    ensures Step32(0x40) == 0xABA6_5FE7
    ensures Step32(0x80) == 0x52A0_C93F
  {
    hide Step32;
    Chain(0x10, 0x105E_C76F, 0x3FC5_F181, 0x70A2_7D8A, 0xE964_B13D);
    Chain(0x20, 0x20BD_8EDE, 0x7F8B_E302, 0xE144_FB14, 0xD725_148B);
    Chain(0x40, 0x417B_1DBC, 0xFF17_C604, 0xC765_80D9, 0xABA6_5FE7);
    Chain(0x80, 0x82F6_3B78, 0xFBC3_FAF9, 0x8B27_7743, 0x52A0_C93F);
  }

  lemma OneSteps(x: bv32)
    ensures Step32(One(x)) == OneStepped(x)
  {
    hide Step32, Eight;
    OneFirst();
    OneLast();
    Linear(x, 0x1, 0x2, 0x4, 0x8,
              0x10, 0x20, 0x40, 0x80);
  }

  lemma OneSpans(word: bv32)
    requires word <= 0xFF
    ensures One(word) == word
  {
  }

  lemma OneSolved(x: bv32)
    requires x <= 0xFF && OneStepped(x) & 0xFF == 0
    ensures x == 0
  {
  }

  /** Such a change shows in the low byte of the checksum. */
  lemma OneByteOver(word: bv32)
    requires word <= 0xFF && Step32(word) & 0xFF == 0
    ensures word == 0
  {
    hide Step32, One, OneStepped;
    OneSpans(word);
    OneSteps(word);
    OneSolved(word);
  }

  // ---------- The word changed in two bytes ----------

  /** The words of two bytes whose steps leave the low byte of the checksum alone. */
  function Two(x: bv32): bv32 {
    Eight(x, 0x1A7, 0x2E9, 0x475, 0x87E,
             0x1068, 0x2044, 0x4088, 0x80B7)
  }

  function TwoStepped(x: bv32): bv32 {
    Eight(x, 0x39C4_F700, 0x4A4D_1900, 0xAD5E_C500, 0x9FB7_B500,
             0xFA65_5500, 0x31C0_9500, 0x6381_2A00, 0xFEC6_A300)
  }

  lemma TwoFirst()
    ensures Step32(0x1A7) == 0x39C4_F700
    ensures Step32(0x2E9) == 0x4A4D_1900
    ensures Step32(0x475) == 0xAD5E_C500
    ensures Step32(0x87E) == 0x9FB7_B500
  {
    hide Step32;
    Chain(0x1A7, 0x7681_D14C, 0xC4E_53BD, 0xD31_7049, 0x39C4_F700);
    Chain(0x2E9, 0x9B82_73D4, 0x14D2_F4C7, 0x1753_90DB, 0x4A4D_1900);
    Chain(0x475, 0x4469_4015, 0x25EB_BA33, 0x2396_51FF, 0xAD5E_C500);
    Chain(0x87E, 0xDDE0_EB22, 0xC15B_1EC2, 0x2277_0D2D, 0x9FB7_B500);
  }

  lemma TwoLast()
    ensures Step32(0x1068) == 0xFA65_5500
    ensures Step32(0x2044) == 0x31C0_9500
    ensures Step32(0x4088) == 0x6381_2A00
    ensures Step32(0x80B7) == 0xFEC6_A300
  {
    hide Step32;
    Chain(0x1068, 0xEB1F_CBBD, 0xDD6_21D1, 0x21B5_B489, 0xFA65_5500);
    Chain(0x2044, 0x86E1_8A83, 0x9120_2906, 0x2630_C7C1, 0x31C0_9500);
    Chain(0x4088, 0x82F_63F7, 0x27AC_24FD, 0x4C61_8F82, 0x6381_2A00);
    Chain(0x80B7, 0x66DF_16A2, 0x4316_1A47, 0x95F2_6F4D, 0xFEC6_A300);
  }

  lemma TwoSteps(x: bv32)
    ensures Step32(Two(x)) == TwoStepped(x)
  {
    hide Step32, Eight;
    TwoFirst();
    TwoLast();
    Linear(x, 0x1A7, 0x2E9, 0x475, 0x87E,
              0x1068, 0x2044, 0x4088, 0x80B7);
  }

  lemma TwoSpans(x: bv32)
    requires x <= 0xFF
    ensures Two(x) >> 8 == x
  {
  }

  lemma SameAbove(word: bv32, t: bv32)
    requires word <= 0xFFFF && t >> 8 == word >> 8
    ensures Xor(word, t) <= 0xFF
  {
  }

  lemma AboveIsByte(word: bv32)
    requires word <= 0xFFFF
    ensures word >> 8 <= 0xFF
  {
  }

  lemma TwoClean(x: bv32, c: bv32)
    requires c & 0xFF == 0
    ensures Xor(c, TwoStepped(x)) & 0xFF == 0
  {
  }

  lemma TwoSolved(x: bv32)
    requires x <= 0xFF && TwoStepped(x) & 0xFFFF == 0
    ensures x == 0 || x == 0xD6
  {
  }

  lemma TwoBytesOver(crc: bv32, word: bv32)
    requires word <= 0xFFFF && crc & 0xFFFF == 0 && Step32(word) == crc
    ensures word == 0 || Cancelling(crc, word)
  {
    hide Step32, Two, TwoStepped, Xor;
    var x := word >> 8;
    AboveIsByte(word);
    TwoSpans(x);
    SameAbove(word, Two(x));
    TwoSteps(x);
    Step32Xor(word, Two(x));
    assert crc & 0xFF == 0;
    TwoClean(x, crc);
    OneByteOver(Xor(word, Two(x)));
    XorIsZero(word, Two(x));
    TwoSolved(x);
    TwoValues(x);
    FirstPair();
  }

  lemma XorIsZero(a: bv32, b: bv32)
    requires Xor(a, b) == 0
    ensures a == b
  {
  }

  lemma TwoValues(x: bv32)
    ensures x == 0 ==> Two(x) == 0
    ensures x == 0xD6 ==> Two(x) == 0xD6CB
  {
  }

  lemma FirstPair()
    ensures Step32(0xD6CB) == 0x8031_0000
  {
    Chain(0xD6CB, 0x5A04_8D29, 0x5855_519F, 0xCCE3_9562, 0x8031_0000);
  }

  // ---------- The word changed in three bytes ----------

  /** The words whose steps change only the top byte of the checksum. */
  function Three(x: bv32): bv32 {
    Eight(x, 0xBF81_8109, 0x7AEF_74E3, 0xF5DE_E9C6, 0xEE51_A57D,
             0xD94F_3C0B, 0xB772_0EE7, 0x6B08_6B3F, 0xD610_D67E)
  }

  function ThreeStepped(x: bv32): bv32 {
    Eight(x, 0x100_0000, 0x200_0000, 0x400_0000, 0x800_0000,
             0x1000_0000, 0x2000_0000, 0x4000_0000, 0x8000_0000)
  }

  lemma ThreeFirst()
    ensures Step32(0xBF81_8109) == 0x100_0000
    ensures Step32(0x7AEF_74E3) == 0x200_0000
    ensures Step32(0xF5DE_E9C6) == 0x400_0000
    ensures Step32(0xEE51_A57D) == 0x800_0000
  {
    hide Step32;
    Chain(0xBF81_8109, 0x780D_5A4D, 0xFE2B_5C35, 0x5EC_76F1, 0x100_0000);
    Chain(0x7AEF_74E3, 0xF01A_B49A, 0xF9BA_CE9B, 0xBD8_EDE2, 0x200_0000);
    Chain(0xF5DE_E9C6, 0xE5D9_1FC5, 0xF699_EBC7, 0x17B1_DBC4, 0x400_0000);
    Chain(0xEE51_A57D, 0xCE5E_497B, 0xE8DF_A17F, 0x2F63_B788, 0x800_0000);
  }

  lemma ThreeLast()
    ensures Step32(0xD94F_3C0B) == 0x1000_0000
    ensures Step32(0xB772_0EE7) == 0x2000_0000
    ensures Step32(0x6B08_6B3F) == 0x4000_0000
    ensures Step32(0xD610_D67E) == 0x8000_0000
  {
    hide Step32;
    Chain(0xD94F_3C0B, 0x9950_E407, 0xD453_340F, 0x5EC7_6F10, 0x1000_0000);
    Chain(0xB772_0EE7, 0x374D_BEFF, 0xAD4A_1EEF, 0xBD8E_DE20, 0x2000_0000);
    Chain(0x6B08_6B3F, 0x6E9B_7DFE, 0x5F78_4B2F, 0x7EF1_CAB1, 0x4000_0000);
    Chain(0xD610_D67E, 0xDD36_FBFC, 0xBEF0_965E, 0xFDE3_9562, 0x8000_0000);
  }

  lemma ThreeSteps(x: bv32)
    ensures Step32(Three(x)) == ThreeStepped(x)
  {
    hide Step32, Eight;
    ThreeFirst();
    ThreeLast();
    Linear(x, 0xBF81_8109, 0x7AEF_74E3, 0xF5DE_E9C6, 0xEE51_A57D,
              0xD94F_3C0B, 0xB772_0EE7, 0x6B08_6B3F, 0xD610_D67E);
  }

  lemma ThreeSpans(crc: bv32)
    requires crc & 0x00FF_FFFF == 0
    ensures ThreeStepped(crc >> 24) == crc && crc >> 24 <= 0xFF
  {
  }

  lemma ThreeSolved(x: bv32)
    requires x <= 0xFF && Three(x) <= 0x00FF_FFFF
    ensures x == 0 || x == 0xAE
  {
  }

  lemma ThreeValues(x: bv32)
    ensures x == 0 ==> Three(x) == 0
    ensures x == 0xAE ==> Three(x) == 0x2_E0C1
  {
  }

  lemma SecondPair()
    ensures Step32(0x2_E0C1) == 0xAE00_0000
  {
    Chain(0x2_E0C1, 0x31E6_A727, 0xF446_0C92, 0x7367_CAEC, 0xAE00_0000);
  }

  lemma ThreeBytesOver(crc: bv32, word: bv32)
    requires word <= 0x00FF_FFFF && crc & 0x00FF_FFFF == 0 && Step32(word) == crc
    ensures word == 0 || Cancelling(crc, word)
  {
    hide Step32, Three, ThreeStepped;
    var x := crc >> 24;
    ThreeSpans(crc);
    ThreeSteps(x);
    Step32Injective(word, Three(x));
    ThreeSolved(x);
    ThreeValues(x);
    SecondPair();
  }

  // ---------- All windows ----------

  /** A change of the checksum and of the word behind it that lies within four adjacent bytes,
      the first n of them in the checksum. */
  predicate Straddles(n: nat, crc: bv32, word: bv32)
    requires n <= 3
  {
    match n
    case 0 => crc == 0
    case 1 => crc & 0x00FF_FFFF == 0 && word <= 0x00FF_FFFF
    case 2 => crc & 0xFFFF == 0 && word <= 0xFFFF
    case 3 => crc & 0xFF == 0 && word <= 0xFF
  }

  /** A changed word passes a changed checksum exactly if the changes are one of the two pairs. */
  lemma PassesExactly(n: nat, crc: bv32, word: bv32)
    requires n <= 3 && Straddles(n, crc, word) && word != 0
    ensures Step32(word) == crc <==> Cancelling(crc, word)
  {
    hide Step32;
    FirstPair();
    SecondPair();
    if Step32(word) == crc {
      match n
      case 0 =>
        assert Step32(0) == 0 by { StepPick(false, 0); }
        Step32Injective(word, 0);
      case 1 => ThreeBytesOver(crc, word);
      case 2 => TwoBytesOver(crc, word);
      case 3 => OneByteOver(word);
    }
  }
}
