/** A known answer of RFC 1321, appendix A.5: the digest of "abc". */
module Md5Answers {
  import opened Basics
  import opened WordArith
  import opened BlockChain
  import opened Md5Spec

  // --- steps on bit vectors ---

  function FourWords(a: bv32, b: bv32, c: bv32, d: bv32): Regs {
    Regs(Value(a), Value(b), Value(c), Value(d))
  }

  /** The function of a round, on bit vectors. */
  function OnBits(i: nat, x: bv32, y: bv32, z: bv32): bv32 {
    if i < 16 then OrBits(AndBits(x, y), AndBits(NotBits(x), z))
    else if i < 32 then OrBits(AndBits(x, z), AndBits(y, NotBits(z)))
    else if i < 48 then XorBits(XorBits(x, y), z)
    else XorBits(y, OrBits(x, NotBits(z)))
  }

  lemma FOnBits(x: bv32, y: bv32, z: bv32)
    ensures F(Value(x), Value(y), Value(z)) == Value(OnBits(0, x, y, z))
  {
    hide Bits, Value, AndBits, OrBits, NotBits;
    BitsOfValue(x);
    BitsOfValue(y);
    BitsOfValue(z);
    BitsOfValue(NotBits(x));
    BitsOfValue(AndBits(x, y));
    BitsOfValue(AndBits(NotBits(x), z));
  }

  lemma GOnBits(x: bv32, y: bv32, z: bv32)
    ensures G(Value(x), Value(y), Value(z)) == Value(OnBits(16, x, y, z))
  {
    hide Bits, Value, AndBits, OrBits, NotBits;
    BitsOfValue(x);
    BitsOfValue(y);
    BitsOfValue(z);
    BitsOfValue(NotBits(z));
    BitsOfValue(AndBits(x, z));
    BitsOfValue(AndBits(y, NotBits(z)));
  }

  lemma HOnBits(x: bv32, y: bv32, z: bv32)
    ensures H(Value(x), Value(y), Value(z)) == Value(OnBits(32, x, y, z))
  {
    hide Bits, Value, XorBits;
    BitsOfValue(x);
    BitsOfValue(y);
    BitsOfValue(z);
    BitsOfValue(XorBits(x, y));
  }

  lemma IOnBits(x: bv32, y: bv32, z: bv32)
    ensures I(Value(x), Value(y), Value(z)) == Value(OnBits(48, x, y, z))
  {
    hide Bits, Value, XorBits, OrBits, NotBits;
    BitsOfValue(x);
    BitsOfValue(y);
    BitsOfValue(z);
    BitsOfValue(NotBits(z));
    BitsOfValue(OrBits(x, NotBits(z)));
  }

  lemma RoundOnBits(i: nat, x: bv32, y: bv32, z: bv32)
    ensures RoundFunction(i, Value(x), Value(y), Value(z)) == Value(OnBits(i, x, y, z))
  {
    hide F, G, H, I, Value, AndBits, OrBits, XorBits, NotBits;
    FOnBits(x, y, z);
    GOnBits(x, y, z);
    HOnBits(x, y, z);
    IOnBits(x, y, z);
  }

  lemma RotlOnBits(x: bv32, n: nat)
    requires 0 < n < 32
    ensures Rotl(Value(x), n) == Value(RotlBits(x, n))
  {
    hide Bits, Value, RotlBits;
    BitsOfValue(x);
  }

  /** One more step, with its word w, constant t, shift n and round value f; the sum before the rotation and the
      new register exceed their words by multiples of 2^32. */
  lemma StepIs(i: nat, x: seq<word>, a: bv32, b: bv32, c: bv32, d: bv32, w: word, t: word, n: nat,
               f: bv32, sum: bv32, carry: nat, r: bv32, e: bv32, carry': nat)
    requires i < 64 && |x| == 16 && Steps(i, IV, x) == FourWords(a, b, c, d)
    requires x[WordIndex(i)] == w && T(i) == t && Shift(i) == n
    requires OnBits(i, b, c, d) == f && RotlBits(sum, n) == r
    requires Value(a) as int + Value(f) as int + w as int + t as int
      == Value(sum) as int + 0x1_0000_0000 * carry
    requires Value(b) as int + Value(r) as int == Value(e) as int + 0x1_0000_0000 * carry'
    ensures Steps(i + 1, IV, x) == FourWords(d, e, b, c)
  {
    hide Value, Rotl, RoundFunction, OnBits, RotlBits, Plus, T, WordIndex, Shift;
    RoundOnBits(i, b, c, d);
    RotlOnBits(sum, n);
    SumIs(Value(a), Value(f), w, t, Value(sum), carry);
    PlusIs(Value(b), Value(r));
  }

  lemma SumIs(p: word, q: word, r: word, s: word, sum: word, carry: nat)
    requires p as int + q as int + r as int + s as int == sum as int + 0x1_0000_0000 * carry
    ensures Plus(Plus(Plus(p, q), r), s) == sum
  {
    hide Plus;
    PlusIs(p, q);
    PlusIs(Plus(p, q), r);
    PlusIs(Plus(Plus(p, q), r), s);
  }

  // --- the block of "abc" ---

  ghost predicate BlockOfAbc(x: seq<word>) {
    |x| == 16 && x[0] == 0x80636261 && x[14] == 24 && forall k :: 0 < k < 16 && k != 14 ==> x[k] == 0
  }

  lemma After0(x: seq<word>)
    requires BlockOfAbc(x)
    ensures Steps(0, IV, x) == FourWords(0x67452301, 0xEFCDAB89, 0x98BADCFE, 0x10325476)
  {
  }

  lemma After4(x: seq<word>)
    requires BlockOfAbc(x)
    ensures Steps(4, IV, x) == FourWords(0xD6D117B4, 0x7AD956F2, 0x2F6FBD72, 0x344A8432)
  {
    hide Steps;
    After0(x);
    StepIs(0, x, 0x67452301, 0xEFCDAB89, 0x98BADCFE, 0x10325476,
      0x80636261, 0xD76AA478, 7, 0x98BADCFE, 0x57CE06D8, 2, 0xE7036C2B, 0xD6D117B4, 1);
    StepIs(1, x, 0x10325476, 0xD6D117B4, 0xEFCDAB89, 0x98BADCFE,
      0x00000000, 0xE8C7B756, 12, 0xCEEBCBCA, 0xC7E5D796, 1, 0x5D796C7E, 0x344A8432, 1);
    StepIs(2, x, 0x98BADCFE, 0x344A8432, 0xD6D117B4, 0xEFCDAB89,
      0x00000000, 0x242070DB, 17, 0xDFC52FB9, 0x9CA07D92, 1, 0xFB253940, 0x2F6FBD72, 1);
    StepIs(3, x, 0xEFCDAB89, 0x2F6FBD72, 0x344A8432, 0xD6D117B4,
      0x00000000, 0xC1BDCEEE, 22, 0xF4DA86B6, 0xA666012D, 2, 0x4B699980, 0x7AD956F2, 0);
  }

  lemma After8(x: seq<word>)
    requires BlockOfAbc(x)
    ensures Steps(8, IV, x) == FourWords(0xC73741EF, 0x928D99F6, 0x207DC67B, 0x8BAC3051)
  {
    hide Steps;
    After4(x);
    StepIs(4, x, 0xD6D117B4, 0x7AD956F2, 0x2F6FBD72, 0x344A8432,
      0x00000000, 0xF57C0FAF, 7, 0x2E4B9472, 0xFA98BBD5, 1, 0x4C5DEAFD, 0xC73741EF, 0);
    StepIs(5, x, 0x344A8432, 0xC73741EF, 0x7AD956F2, 0x2F6FBD72,
      0x00000000, 0x4787C62A, 12, 0x6A59FCF2, 0xE62C474E, 0, 0xC474EE62, 0x8BAC3051, 1);
    StepIs(6, x, 0x2F6FBD72, 0x8BAC3051, 0xC73741EF, 0x7AD956F2,
      0x00000000, 0xA8304613, 17, 0xF37546E3, 0xCB154A68, 1, 0x94D1962A, 0x207DC67B, 1);
    StepIs(7, x, 0x7AD956F2, 0x207DC67B, 0x8BAC3051, 0xC73741EF,
      0x00000000, 0xFD469501, 22, 0xC72E01D5, 0x3F4DEDC8, 2, 0x720FD37B, 0x928D99F6, 0);
  }

  lemma After12(x: seq<word>)
    requires BlockOfAbc(x)
    ensures Steps(12, IV, x) == FourWords(0x854B3712, 0x5ED49596, 0x3020401C, 0x74E2F284)
  {
    hide Steps;
    After8(x);
    StepIs(8, x, 0xC73741EF, 0x928D99F6, 0x207DC67B, 0x8BAC3051,
      0x00000000, 0x698098D8, 7, 0x092DA073, 0x39E57B3A, 1, 0xF2BD9D1C, 0x854B3712, 1);
    StepIs(9, x, 0x8BAC3051, 0x854B3712, 0x928D99F6, 0x207DC67B,
      0x00000000, 0x8B44F7AF, 12, 0xA03DD17B, 0xB72EF97B, 1, 0xEF97BB72, 0x74E2F284, 1);
    StepIs(10, x, 0x207DC67B, 0x74E2F284, 0x854B3712, 0x928D99F6,
      0x00000000, 0xFFFF5BB1, 17, 0x864F3B72, 0xA6CC5D9E, 1, 0xBB3D4D98, 0x3020401C, 1);
    StepIs(11, x, 0x928D99F6, 0x3020401C, 0x74E2F284, 0x854B3712,
      0x00000000, 0x895CD7BE, 22, 0xB56B7706, 0xD155E8BA, 1, 0x2EB4557A, 0x5ED49596, 0);
  }

  lemma After16(x: seq<word>)
    requires BlockOfAbc(x)
    ensures Steps(16, IV, x) == FourWords(0xDDA9B9A6, 0x72AFF2E0, 0xE396856B, 0xA1051895)
  {
    hide Steps;
    After12(x);
    StepIs(12, x, 0x854B3712, 0x5ED49596, 0x3020401C, 0x74E2F284,
      0x00000000, 0x6B901122, 7, 0x30226214, 0x20FDAA48, 1, 0x7ED52410, 0xDDA9B9A6, 0);
    StepIs(13, x, 0x74E2F284, 0xDDA9B9A6, 0x5ED49596, 0x3020401C,
      0x00000000, 0xFD987193, 12, 0x7C80D19E, 0xEEFC35B5, 1, 0xC35B5EEF, 0xA1051895, 1);
    StepIs(14, x, 0x3020401C, 0xA1051895, 0xDDA9B9A6, 0x5ED49596,
      0x00000018, 0xA679438E, 17, 0xDFD19D86, 0xB66B2148, 1, 0x42916CD6, 0xE396856B, 0);
    StepIs(15, x, 0x5ED49596, 0xE396856B, 0xA1051895, 0xDDA9B9A6,
      0x00000000, 0x49B40821, 22, 0xBD2D3885, 0x65B5D63C, 1, 0x8F196D75, 0x72AFF2E0, 1);
  }

  lemma After20(x: seq<word>)
    requires BlockOfAbc(x)
    ensures Steps(20, IV, x) == FourWords(0x3E9E9126, 0xB5B204E4, 0xE25E1652, 0x4A1D804E)
  {
    hide Steps;
    After16(x);
    StepIs(16, x, 0xDDA9B9A6, 0x72AFF2E0, 0xE396856B, 0xA1051895,
      0x00000000, 0xF61E2562, 5, 0x629795EA, 0x365F74F2, 2, 0xCBEE9E46, 0x3E9E9126, 1);
    StepIs(17, x, 0xA1051895, 0x3E9E9126, 0x72AFF2E0, 0xE396856B,
      0x00000000, 0xC040B340, 9, 0x32BFF3A2, 0x9405BF77, 1, 0x0B7EEF28, 0x4A1D804E, 0);
    StepIs(18, x, 0xE396856B, 0x4A1D804E, 0x3E9E9126, 0x72AFF2E0,
      0x00000000, 0x265E5A51, 14, 0x4E1D8146, 0x58126102, 1, 0x98409604, 0xE25E1652, 0);
    StepIs(19, x, 0x72AFF2E0, 0xE25E1652, 0x4A1D804E, 0x3E9E9126,
      0x80636261, 0xE9B6C7AA, 20, 0x621F104A, 0x3EE92D35, 2, 0xD353EE92, 0xB5B204E4, 1);
  }

  lemma After24(x: seq<word>)
    requires BlockOfAbc(x)
    ensures Steps(24, IV, x) == FourWords(0x59A8FFDA, 0x47092C07, 0xABFC7920, 0x6D002F1E)
  {
    hide Steps;
    After20(x);
    StepIs(20, x, 0x3E9E9126, 0xB5B204E4, 0xE25E1652, 0x4A1D804E,
      0x00000000, 0xD62F105D, 5, 0xA0521654, 0xB51FB7D7, 1, 0xA3F6FAF6, 0x59A8FFDA, 1);
    StepIs(21, x, 0x4A1D804E, 0x59A8FFDA, 0xB5B204E4, 0xE25E1652,
      0x00000000, 0x02441453, 9, 0x55A816F6, 0xA209AB97, 0, 0x13572F44, 0x6D002F1E, 0);
    StepIs(22, x, 0xE25E1652, 0x6D002F1E, 0x59A8FFDA, 0xB5B204E4,
      0x00000000, 0xD8A1E681, 14, 0x6D08FF1E, 0x2808FBF1, 2, 0x3EFC4A02, 0xABFC7920, 0);
    StepIs(23, x, 0xB5B204E4, 0xABFC7920, 0x6D002F1E, 0x59A8FFDA,
      0x00000000, 0xE7D3FBC8, 20, 0x2DA87904, 0xCB2E79B0, 1, 0x9B0CB2E7, 0x47092C07, 1);
  }

  lemma After28(x: seq<word>)
    requires BlockOfAbc(x)
    ensures Steps(28, IV, x) == FourWords(0xB7F268CF, 0x786ACB8F, 0xFE1623B1, 0x09388EFF)
  {
    hide Steps;
    After24(x);
    StepIs(24, x, 0x59A8FFDA, 0x47092C07, 0xABFC7920, 0x6D002F1E,
      0x00000000, 0x21E1CDE6, 5, 0xC7FC7C26, 0x438749E6, 1, 0x70E93CC8, 0xB7F268CF, 0);
    StepIs(25, x, 0x6D002F1E, 0xB7F268CF, 0x47092C07, 0xABFC7920,
      0x00000018, 0xC33707D6, 9, 0xE7F16C07, 0x1828A313, 2, 0x51462630, 0x09388EFF, 1);
    StepIs(26, x, 0xABFC7920, 0x09388EFF, 0xB7F268CF, 0x47092C07,
      0x00000000, 0xF4D50D87, 14, 0xB1FA4CCF, 0x52CBD376, 2, 0xF4DD94B2, 0xFE1623B1, 0);
    StepIs(27, x, 0x47092C07, 0xFE1623B1, 0x09388EFF, 0xB7F268CF,
      0x00000000, 0x455A14ED, 20, 0xBE1AA6B1, 0x4A7DE7A5, 1, 0x7A54A7DE, 0x786ACB8F, 1);
  }

  lemma After32(x: seq<word>)
    requires BlockOfAbc(x)
    ensures Steps(32, IV, x) == FourWords(0x790A77FB, 0x726342D3, 0xA62884AA, 0x9F47E4F8)
  {
    hide Steps;
    After28(x);
    StepIs(28, x, 0xB7F268CF, 0x786ACB8F, 0xFE1623B1, 0x09388EFF,
      0x00000000, 0xA9E3E905, 5, 0xFE2EAB8F, 0x6004FD63, 2, 0x009FAC6C, 0x790A77FB, 0);
    StepIs(29, x, 0x09388EFF, 0x790A77FB, 0x786ACB8F, 0xFE1623B1,
      0x00000000, 0xFCEFA3F8, 9, 0x786AEBBF, 0x7E931EB6, 1, 0x263D6CFD, 0x9F47E4F8, 0);
    StepIs(30, x, 0xFE1623B1, 0x9F47E4F8, 0x790A77FB, 0x786ACB8F,
      0x00000000, 0x676F02D9, 14, 0x1942F4F8, 0x7EC81B82, 1, 0x06E09FB2, 0xA62884AA, 0);
    StepIs(31, x, 0x786ACB8F, 0xA62884AA, 0x9F47E4F8, 0x790A77FB,
      0x00000000, 0x8D2A4C8A, 20, 0xA64D84AA, 0xABE29CC3, 1, 0xCC3ABE29, 0x726342D3, 1);
  }

  lemma After36(x: seq<word>)
    requires BlockOfAbc(x)
    ensures Steps(36, IV, x) == FourWords(0xB3707EBF, 0x3B0875C7, 0x8D212FF5, 0x60127B2E)
  {
    hide Steps;
    After32(x);
    StepIs(32, x, 0x790A77FB, 0x726342D3, 0xA62884AA, 0x9F47E4F8,
      0x00000000, 0xFFFA3942, 4, 0x4B0C2281, 0xC410D3BE, 1, 0x410D3BEC, 0xB3707EBF, 0);
    StepIs(33, x, 0x9F47E4F8, 0xB3707EBF, 0x726342D3, 0xA62884AA,
      0x00000000, 0x8771F681, 11, 0x673BB8C6, 0x8DF5943F, 1, 0xACA1FC6F, 0x60127B2E, 1);
    StepIs(34, x, 0xA62884AA, 0x60127B2E, 0xB3707EBF, 0x726342D3,
      0x00000000, 0x6D9D6122, 16, 0xA1014742, 0xB4C72D0E, 1, 0x2D0EB4C7, 0x8D212FF5, 0);
    StepIs(35, x, 0x726342D3, 0x8D212FF5, 0x60127B2E, 0xB3707EBF,
      0x00000018, 0xFDE5380C, 23, 0x5E432A64, 0xCE8BA55B, 1, 0xADE745D2, 0x3B0875C7, 1);
  }

  lemma After40(x: seq<word>)
    requires BlockOfAbc(x)
    ensures Steps(40, IV, x) == FourWords(0x21B117B9, 0x5A2F5EA5, 0x3575227E, 0x6E7429D5)
  {
    hide Steps;
    After36(x);
    StepIs(36, x, 0xB3707EBF, 0x3B0875C7, 0x8D212FF5, 0x60127B2E,
      0x00000000, 0xA4BEEA44, 4, 0xD63B211C, 0x2E6A8A1F, 2, 0xE6A8A1F2, 0x21B117B9, 1);
    StepIs(37, x, 0x60127B2E, 0x21B117B9, 0x3B0875C7, 0x8D212FF5,
      0x00000000, 0x4BDECFA9, 11, 0x97984D8B, 0x43899862, 1, 0x4CC3121C, 0x6E7429D5, 0);
    StepIs(38, x, 0x8D212FF5, 0x6E7429D5, 0x21B117B9, 0x3B0875C7,
      0x00000000, 0xF6BB4B60, 16, 0x74CD4BAB, 0xF8A9C700, 1, 0xC700F8A9, 0x3575227E, 1);
    StepIs(39, x, 0x3B0875C7, 0x3575227E, 0x6E7429D5, 0x21B117B9,
      0x00000000, 0xBEBFBC70, 23, 0x7AB01C12, 0x74784E49, 1, 0x24BA3C27, 0x5A2F5EA5, 0);
  }

  lemma After44(x: seq<word>)
    requires BlockOfAbc(x)
    ensures Steps(44, IV, x) == FourWords(0x11DE1779, 0x4C6124F4, 0x31C465CA, 0xFADCAA38)
  {
    hide Steps;
    After40(x);
    StepIs(40, x, 0x21B117B9, 0x5A2F5EA5, 0x3575227E, 0x6E7429D5,
      0x00000000, 0x289B7EC6, 4, 0x012E550E, 0x4B7AEB8D, 0, 0xB7AEB8D4, 0x11DE1779, 1);
    StepIs(41, x, 0x6E7429D5, 0x11DE1779, 0x5A2F5EA5, 0x3575227E,
      0x80636261, 0xEAA127FA, 11, 0x7E846BA2, 0x57FD1FD2, 2, 0xE8FE92BF, 0xFADCAA38, 0);
    StepIs(42, x, 0x3575227E, 0xFADCAA38, 0x11DE1779, 0x5A2F5EA5,
      0x00000000, 0xD4EF3085, 16, 0xB12DE3E4, 0xBB9236E7, 1, 0x36E7BB92, 0x31C465CA, 1);
    StepIs(43, x, 0x5A2F5EA5, 0x31C465CA, 0xFADCAA38, 0x11DE1779,
      0x00000000, 0x04881D05, 23, 0xDAC6D88B, 0x397E5435, 1, 0x1A9CBF2A, 0x4C6124F4, 0);
  }

  lemma After48(x: seq<word>)
    requires BlockOfAbc(x)
    ensures Steps(48, IV, x) == FourWords(0x7F2E507B, 0x7BEB9700, 0x8FAE6399, 0x99D9679D)
  {
    hide Steps;
    After44(x);
    StepIs(44, x, 0x11DE1779, 0x4C6124F4, 0x31C465CA, 0xFADCAA38,
      0x00000000, 0xD9D4D039, 4, 0x8779EB06, 0x732CD2B8, 1, 0x32CD2B87, 0x7F2E507B, 0);
    StepIs(45, x, 0xFADCAA38, 0x7F2E507B, 0x4C6124F4, 0x31C465CA,
      0x00000000, 0xE6DB99E5, 11, 0x028B1145, 0xE4435562, 1, 0x1AAB1722, 0x99D9679D, 0);
    StepIs(46, x, 0x31C465CA, 0x99D9679D, 0x7F2E507B, 0x4C6124F4,
      0x00000000, 0x1FA27CF8, 16, 0xAA961312, 0xFBFCF5D4, 0, 0xF5D4FBFC, 0x8FAE6399, 1);
    StepIs(47, x, 0x4C6124F4, 0x8FAE6399, 0x99D9679D, 0x7F2E507B,
      0x00000000, 0xC4AC5665, 23, 0x6959547F, 0x7A66CFD8, 1, 0xEC3D3367, 0x7BEB9700, 1);
  }

  lemma After52(x: seq<word>)
    requires BlockOfAbc(x)
    ensures Steps(52, IV, x) == FourWords(0x7B201DF8, 0x8BF025C4, 0xB298CEFD, 0xF4E8E96E)
  {
    hide Steps;
    After48(x);
    StepIs(48, x, 0x7F2E507B, 0x7BEB9700, 0x8FAE6399, 0x99D9679D,
      0x80636261, 0xF4292244, 6, 0xF041FCFB, 0xE3FCD21B, 2, 0xFF3486F8, 0x7B201DF8, 1);
    StepIs(49, x, 0x99D9679D, 0x7B201DF8, 0x7BEB9700, 0x8FAE6399,
      0x00000000, 0x432AFF97, 10, 0x009A0AFE, 0xDD9E7232, 0, 0x79C8CB76, 0xF4E8E96E, 0);
    StepIs(50, x, 0x8FAE6399, 0xF4E8E96E, 0x7B201DF8, 0x7BEB9700,
      0x00000018, 0xAB9423A7, 15, 0x8FDCF407, 0xCB1F7B5F, 1, 0xBDAFE58F, 0xB298CEFD, 1);
    StepIs(51, x, 0x7BEB9700, 0xB298CEFD, 0xF4E8E96E, 0x7B201DF8,
      0x00000000, 0xFC93A039, 21, 0x42370791, 0xBAB63ECA, 1, 0xD95756C7, 0x8BF025C4, 1);
  }

  lemma After56(x: seq<word>)
    requires BlockOfAbc(x)
    ensures Steps(56, IV, x) == FourWords(0x06CC5E8A, 0x3BFA2C27, 0x7D632DD0, 0x5B0D97AA)
  {
    hide Steps;
    After52(x);
    StepIs(52, x, 0x7B201DF8, 0x8BF025C4, 0xB298CEFD, 0xF4E8E96E,
      0x00000000, 0x655B59C3, 6, 0x396FF928, 0x19EB70E3, 1, 0x7ADC38C6, 0x06CC5E8A, 1);
    StepIs(53, x, 0xF4E8E96E, 0x06CC5E8A, 0x8BF025C4, 0xB298CEFD,
      0x00000000, 0x8F0CCC92, 10, 0xC41F5A4E, 0x4815104E, 2, 0x54413920, 0x5B0D97AA, 0);
    StepIs(54, x, 0xB298CEFD, 0x5B0D97AA, 0x06CC5E8A, 0x8BF025C4,
      0x00000000, 0xFFEFF47D, 15, 0x79C38131, 0x2C4C44AB, 2, 0x22559626, 0x7D632DD0, 0);
    StepIs(55, x, 0x8BF025C4, 0x7D632DD0, 0x5B0D97AA, 0x06CC5E8A,
      0x00000000, 0x85845DD1, 21, 0xA67E3A5F, 0xB7F2BDF4, 1, 0xBE96FE57, 0x3BFA2C27, 1);
  }

  lemma After60(x: seq<word>)
    requires BlockOfAbc(x)
    ensures Steps(60, IV, x) == FourWords(0x7F81CC35, 0x7327D604, 0x4F9DBE3F, 0x094454AB)
  {
    hide Steps;
    After56(x);
    StepIs(56, x, 0x06CC5E8A, 0x3BFA2C27, 0x7D632DD0, 0x5B0D97AA,
      0x00000000, 0x6FA87E4F, 6, 0xC29941A7, 0x390E1E80, 1, 0x4387A00E, 0x7F81CC35, 0);
    StepIs(57, x, 0x5B0D97AA, 0x7F81CC35, 0x3BFA2C27, 0x7D632DD0,
      0x00000000, 0xFE2CE6E0, 10, 0xC467F218, 0x1DA270A2, 2, 0x89C28876, 0x094454AB, 1);
    StepIs(58, x, 0x7D632DD0, 0x094454AB, 0x7F81CC35, 0x3BFA2C27,
      0x00000000, 0xA3014314, 15, 0xB2C41BCE, 0xD3288CB2, 1, 0x46596994, 0x4F9DBE3F, 0);
    StepIs(59, x, 0x3BFA2C27, 0x4F9DBE3F, 0x094454AB, 0x7F81CC35,
      0x00000000, 0x4E0811A1, 21, 0xC6BBEB54, 0x50BE291C, 1, 0x238A17C5, 0x7327D604, 0);
  }

  lemma After64(x: seq<word>)
    requires BlockOfAbc(x)
    ensures Steps(64, IV, x) == FourWords(0x310ADE8F, 0xC08226B3, 0xE484B9D8, 0x624D8CB2)
  {
    hide Steps;
    After60(x);
    StepIs(60, x, 0x7F81CC35, 0x7327D604, 0x4F9DBE3F, 0x094454AB,
      0x00000000, 0xF7537E82, 6, 0xB822416B, 0x2EF78C22, 2, 0xBDE3088B, 0x310ADE8F, 1);
    StepIs(61, x, 0x094454AB, 0x310ADE8F, 0x7327D604, 0x4F9DBE3F,
      0x00000000, 0xBD3AF235, 10, 0xC24D09CB, 0x88CC50AB, 1, 0x3142AE23, 0x624D8CB2, 0);
    StepIs(62, x, 0x4F9DBE3F, 0x624D8CB2, 0x310ADE8F, 0x7327D604,
      0x00000000, 0x2AD7D2BB, 15, 0xDFD77374, 0x5A4D046E, 1, 0x82372D26, 0xE484B9D8, 0);
    StepIs(63, x, 0x7327D604, 0xE484B9D8, 0x624D8CB2, 0x310ADE8F,
      0x00000000, 0xEB86D391, 21, 0x8CB8354A, 0xEB66DEDF, 1, 0xDBFD6CDB, 0xC08226B3, 1);
  }

  // --- the padded message ---

  lemma PaddedAbc(block: Bytes)
    requires block == Padded([0x61, 0x62, 0x63], LengthField(3))
    ensures |block| == 64 && BlockOfAbc(WordsOfBlock(block))
  {
    assert LengthField(3) == LittleBytes(24) + LittleBytes(0);
    WordOfBytes(24);
    hide LengthField, LittleBytes;
    var x := WordsOfBlock(block);
    assert block[0..4] == [0x61, 0x62, 0x63, 0x80];
    assert block[56..60] == LittleBytes(24) && block[60..64] == LittleBytes(0);
    ZeroWord();
    forall k | 0 < k < 15 && k != 14 ensures x[k] == 0 {
      assert block[4 * k..4 * k + 4] == [0, 0, 0, 0];
    }
  }

  lemma ZeroWord()
    ensures LittleWord([0, 0, 0, 0]) == 0 && LittleBytes(0) == [0, 0, 0, 0]
  {
  }

  lemma Registers(x: seq<word>)
    requires BlockOfAbc(x)
    ensures CompressWords(IV, x) == Regs(0x98500190, 0xB04FD23C, 0x7D3F96D6, 0x727FE128)
  {
    hide Steps;
    After64(x);
    assert Value(0x310ADE8F) == 0x310ADE8F && Value(0xC08226B3) == 0xC08226B3;
    assert Value(0xE484B9D8) == 0xE484B9D8 && Value(0x624D8CB2) == 0x624D8CB2;
    hide Value;
  }

  lemma DigestBytes()
    ensures RegsBytes(Regs(0x98500190, 0xB04FD23C, 0x7D3F96D6, 0x727FE128)) == [
      0x90, 0x01, 0x50, 0x98, 0x3C, 0xD2, 0x4F, 0xB0, 0xD6, 0x96, 0x3F, 0x7D, 0x28, 0xE1, 0x7F, 0x72]
  {
  }

  /** MD5 ("abc") = 900150983cd24fb0d6963f7d28e17f72. */
  lemma DigestOfAbc()
    ensures Digest([0x61, 0x62, 0x63]) == [
      0x90, 0x01, 0x50, 0x98, 0x3C, 0xD2, 0x4F, 0xB0, 0xD6, 0x96, 0x3F, 0x7D, 0x28, 0xE1, 0x7F, 0x72]
  {
    hide CompressWords, WordsOfBlock, LengthField, Padded, RegsBytes, Whole;
    var m: Bytes := [0x61, 0x62, 0x63];
    var block := Padded(m, LengthField(|m|));
    PaddedAbc(block);
    Registers(WordsOfBlock(block));
    WholeAnd(0, 0);
    ChainBlock(Compress, IV, [], block);
    assert [] + block == block;
    DigestBytes();
  }
}
