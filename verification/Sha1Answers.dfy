/** A known answer of FIPS 180-4: the SHA-1 digest of "abc". */
module Sha1Answers {
  import opened Basics
  import opened WordArith
  import opened BlockChain
  import opened Sha1Spec

  // --- steps on bit vectors ---

  function FiveWords(a: bv32, b: bv32, c: bv32, d: bv32, e: bv32): Regs {
    Regs(Value(a), Value(b), Value(c), Value(d), Value(e))
  }

  /** The function of a round, on bit vectors. */
  function OnBits(t: nat, x: bv32, y: bv32, z: bv32): bv32 {
    if t < 20 then XorBits(AndBits(x, y), AndBits(NotBits(x), z))
    else if t < 40 || t >= 60 then XorBits(XorBits(x, y), z)
    else XorBits(XorBits(AndBits(x, y), AndBits(x, z)), AndBits(y, z))
  }

  lemma ChOnBits(x: bv32, y: bv32, z: bv32)
    ensures Ch(Value(x), Value(y), Value(z)) == Value(OnBits(0, x, y, z))
  {
    hide Bits, Value, AndBits, XorBits, NotBits;
    BitsOfValue(x);
    BitsOfValue(y);
    BitsOfValue(z);
    BitsOfValue(NotBits(x));
    BitsOfValue(AndBits(x, y));
    BitsOfValue(AndBits(NotBits(x), z));
  }

  lemma ParityOnBits(x: bv32, y: bv32, z: bv32)
    ensures Parity(Value(x), Value(y), Value(z)) == Value(OnBits(20, x, y, z))
  {
    hide Bits, Value, XorBits;
    BitsOfValue(x);
    BitsOfValue(y);
    BitsOfValue(z);
    BitsOfValue(XorBits(x, y));
  }

  lemma MajOnBits(x: bv32, y: bv32, z: bv32)
    ensures Maj(Value(x), Value(y), Value(z)) == Value(OnBits(40, x, y, z))
  {
    hide Bits, Value, AndBits, XorBits;
    BitsOfValue(x);
    BitsOfValue(y);
    BitsOfValue(z);
    BitsOfValue(AndBits(x, y));
    BitsOfValue(AndBits(x, z));
    BitsOfValue(AndBits(y, z));
    BitsOfValue(XorBits(AndBits(x, y), AndBits(x, z)));
  }

  lemma RoundOnBits(t: nat, x: bv32, y: bv32, z: bv32)
    ensures RoundFunction(t, Value(x), Value(y), Value(z)) == Value(OnBits(t, x, y, z))
  {
    hide Ch, Parity, Maj, Value, AndBits, XorBits, NotBits;
    ChOnBits(x, y, z);
    ParityOnBits(x, y, z);
    MajOnBits(x, y, z);
  }

  lemma RotlOnBits(x: bv32, n: nat)
    requires 0 < n < 32
    ensures Rotl(Value(x), n) == Value(RotlBits(x, n))
  {
    hide Bits, Value, RotlBits;
    BitsOfValue(x);
  }

  /** One more step, with its schedule word w, constant k, rotated register r and round value f; the sum exceeds
      the new register by carry times 2^32. */
  lemma StepIs(t: nat, x: seq<word>, a: bv32, b: bv32, c: bv32, d: bv32, e: bv32, r: bv32, f: bv32, w: bv32, k: word,
               sum: bv32, carry: nat)
    requires |x| == 16 && Steps(t, IV, x) == FiveWords(a, b, c, d, e) && W(x, t) == Value(w) && K(t) == k
    requires RotlBits(a, 5) == r && OnBits(t, b, c, d) == f
    requires Value(r) as int + Value(f) as int + Value(e) as int + k as int + Value(w) as int
      == Value(sum) as int + 0x1_0000_0000 * carry
    ensures Steps(t + 1, IV, x) == FiveWords(sum, a, RotlBits(b, 30), c, d)
  {
    hide Value, Rotl, RotlBits, RoundFunction, OnBits, Plus, K, W;
    RoundOnBits(t, b, c, d);
    RotlOnBits(a, 5);
    RotlOnBits(b, 30);
    SumIs(Value(r), Value(f), Value(e), k, Value(w), Value(sum), carry);
  }

  lemma SumIs(p: word, q: word, r: word, s: word, t: word, sum: word, carry: nat)
    requires p as int + q as int + r as int + s as int + t as int == sum as int + 0x1_0000_0000 * carry
    ensures Plus(Plus(Plus(Plus(p, q), r), s), t) == sum
  {
    hide Plus;
    PlusIs(p, q);
    PlusIs(Plus(p, q), r);
    PlusIs(Plus(Plus(p, q), r), s);
    PlusIs(Plus(Plus(Plus(p, q), r), s), t);
  }

  /** One word of the schedule. */
  lemma WordIs(x: seq<word>, t: nat, p: bv32, q: bv32, r: bv32, s: bv32)
    requires |x| == 16 && t >= 16 && W(x, t - 3) == Value(p) && W(x, t - 8) == Value(q)
    requires W(x, t - 14) == Value(r) && W(x, t - 16) == Value(s)
    ensures W(x, t) == Value(RotlBits(XorBits(XorBits(XorBits(p, q), r), s), 1))
  {
    hide Value, Bits, XorBits, RotlBits, Rotl;
    BitsOfValue(p);
    BitsOfValue(q);
    BitsOfValue(r);
    BitsOfValue(s);
    BitsOfValue(XorBits(p, q));
    BitsOfValue(XorBits(XorBits(p, q), r));
    RotlOnBits(XorBits(XorBits(XorBits(p, q), r), s), 1);
  }

  // --- the schedule of "abc" ---

  ghost predicate BlockOfAbc(x: seq<word>) {
    |x| == 16 && x[0] == 0x61626380 && x[15] == 24 && forall k :: 0 < k < 15 ==> x[k] == 0
  }

  lemma Words0(x: seq<word>)
    requires BlockOfAbc(x)
    ensures W(x, 0) == Value(0x61626380) && W(x, 1) == Value(0x00000000)
    ensures W(x, 2) == Value(0x00000000) && W(x, 3) == Value(0x00000000)
    ensures W(x, 4) == Value(0x00000000) && W(x, 5) == Value(0x00000000)
    ensures W(x, 6) == Value(0x00000000) && W(x, 7) == Value(0x00000000)
  {
  }

  lemma Words8(x: seq<word>)
    requires BlockOfAbc(x)
    ensures W(x, 8) == Value(0x00000000) && W(x, 9) == Value(0x00000000)
    ensures W(x, 10) == Value(0x00000000) && W(x, 11) == Value(0x00000000)
    ensures W(x, 12) == Value(0x00000000) && W(x, 13) == Value(0x00000000)
    ensures W(x, 14) == Value(0x00000000) && W(x, 15) == Value(0x00000018)
  {
  }

  lemma Words16(x: seq<word>)
    requires BlockOfAbc(x)
    ensures W(x, 16) == Value(0xC2C4C700) && W(x, 17) == Value(0x00000000)
    ensures W(x, 18) == Value(0x00000030) && W(x, 19) == Value(0x85898E01)
    ensures W(x, 20) == Value(0x00000000) && W(x, 21) == Value(0x00000060)
    ensures W(x, 22) == Value(0x0B131C03) && W(x, 23) == Value(0x00000030)
  {
    hide W, Value;
    Words0(x);
    Words8(x);
    WordIs(x, 16, 0x00000000, 0x00000000, 0x00000000, 0x61626380);
    WordIs(x, 17, 0x00000000, 0x00000000, 0x00000000, 0x00000000);
    WordIs(x, 18, 0x00000018, 0x00000000, 0x00000000, 0x00000000);
    WordIs(x, 19, 0xC2C4C700, 0x00000000, 0x00000000, 0x00000000);
    WordIs(x, 20, 0x00000000, 0x00000000, 0x00000000, 0x00000000);
    WordIs(x, 21, 0x00000030, 0x00000000, 0x00000000, 0x00000000);
    WordIs(x, 22, 0x85898E01, 0x00000000, 0x00000000, 0x00000000);
    WordIs(x, 23, 0x00000000, 0x00000018, 0x00000000, 0x00000000);
  }

  lemma Words24(x: seq<word>)
    requires BlockOfAbc(x)
    ensures W(x, 24) == Value(0x85898EC1) && W(x, 25) == Value(0x16263806)
    ensures W(x, 26) == Value(0x00000000) && W(x, 27) == Value(0x00000180)
    ensures W(x, 28) == Value(0x2C4C700C) && W(x, 29) == Value(0x000000F0)
    ensures W(x, 30) == Value(0x93AFB507) && W(x, 31) == Value(0x5898E048)
  {
    hide W, Value;
    Words8(x);
    Words16(x);
    WordIs(x, 24, 0x00000060, 0xC2C4C700, 0x00000000, 0x00000000);
    WordIs(x, 25, 0x0B131C03, 0x00000000, 0x00000000, 0x00000000);
    WordIs(x, 26, 0x00000030, 0x00000030, 0x00000000, 0x00000000);
    WordIs(x, 27, 0x85898EC1, 0x85898E01, 0x00000000, 0x00000000);
    WordIs(x, 28, 0x16263806, 0x00000000, 0x00000000, 0x00000000);
    WordIs(x, 29, 0x00000000, 0x00000060, 0x00000018, 0x00000000);
    WordIs(x, 30, 0x00000180, 0x0B131C03, 0xC2C4C700, 0x00000000);
    WordIs(x, 31, 0x2C4C700C, 0x00000030, 0x00000000, 0x00000018);
  }

  lemma Words32(x: seq<word>)
    requires BlockOfAbc(x)
    ensures W(x, 32) == Value(0x8E9A9202) && W(x, 33) == Value(0x00000600)
    ensures W(x, 34) == Value(0xB131C0F0) && W(x, 35) == Value(0x16263BC6)
    ensures W(x, 36) == Value(0x4EBED41E) && W(x, 37) == Value(0x626380A1)
    ensures W(x, 38) == Value(0x16263806) && W(x, 39) == Value(0x000018C0)
  {
    hide W, Value;
    Words16(x);
    Words24(x);
    WordIs(x, 32, 0x000000F0, 0x85898EC1, 0x00000030, 0xC2C4C700);
    WordIs(x, 33, 0x93AFB507, 0x16263806, 0x85898E01, 0x00000000);
    WordIs(x, 34, 0x5898E048, 0x00000000, 0x00000000, 0x00000030);
    WordIs(x, 35, 0x8E9A9202, 0x00000180, 0x00000060, 0x85898E01);
    WordIs(x, 36, 0x00000600, 0x2C4C700C, 0x0B131C03, 0x00000000);
    WordIs(x, 37, 0xB131C0F0, 0x000000F0, 0x00000030, 0x00000060);
    WordIs(x, 38, 0x16263BC6, 0x93AFB507, 0x85898EC1, 0x0B131C03);
    WordIs(x, 39, 0x4EBED41E, 0x5898E048, 0x16263806, 0x00000030);
  }

  lemma Words40(x: seq<word>)
    requires BlockOfAbc(x)
    ensures W(x, 40) == Value(0xD2E138C4) && W(x, 41) == Value(0x00000F00)
    ensures W(x, 42) == Value(0x3AFB5079) && W(x, 43) == Value(0x898E04E5)
    ensures W(x, 44) == Value(0xE2BA3C2B) && W(x, 45) == Value(0x000060C0)
    ensures W(x, 46) == Value(0x053A37CD) && W(x, 47) == Value(0x74458547)
  {
    hide W, Value;
    Words24(x);
    Words32(x);
    WordIs(x, 40, 0x626380A1, 0x8E9A9202, 0x00000000, 0x85898EC1);
    WordIs(x, 41, 0x16263806, 0x00000600, 0x00000180, 0x16263806);
    WordIs(x, 42, 0x000018C0, 0xB131C0F0, 0x2C4C700C, 0x00000000);
    WordIs(x, 43, 0xD2E138C4, 0x16263BC6, 0x000000F0, 0x00000180);
    WordIs(x, 44, 0x00000F00, 0x4EBED41E, 0x93AFB507, 0x2C4C700C);
    WordIs(x, 45, 0x3AFB5079, 0x626380A1, 0x5898E048, 0x000000F0);
    WordIs(x, 46, 0x898E04E5, 0x16263806, 0x8E9A9202, 0x93AFB507);
    WordIs(x, 47, 0xE2BA3C2B, 0x000018C0, 0x00000600, 0x5898E048);
  }

  lemma Words48(x: seq<word>)
    requires BlockOfAbc(x)
    ensures W(x, 48) == Value(0xDA9415ED) && W(x, 49) == Value(0x26380A16)
    ensures W(x, 50) == Value(0x626383A1) && W(x, 51) == Value(0x4EBF54DE)
    ensures W(x, 52) == Value(0x3835B44B) && W(x, 53) == Value(0x0000F600)
    ensures W(x, 54) == Value(0x1E84C7A3) && W(x, 55) == Value(0x98E04D98)
  {
    hide W, Value;
    Words32(x);
    Words40(x);
    WordIs(x, 48, 0x000060C0, 0xD2E138C4, 0xB131C0F0, 0x8E9A9202);
    WordIs(x, 49, 0x053A37CD, 0x00000F00, 0x16263BC6, 0x00000600);
    WordIs(x, 50, 0x74458547, 0x3AFB5079, 0x4EBED41E, 0xB131C0F0);
    WordIs(x, 51, 0xDA9415ED, 0x898E04E5, 0x626380A1, 0x16263BC6);
    WordIs(x, 52, 0x26380A16, 0xE2BA3C2B, 0x16263806, 0x4EBED41E);
    WordIs(x, 53, 0x626383A1, 0x000060C0, 0x000018C0, 0x626380A1);
    WordIs(x, 54, 0x4EBF54DE, 0x053A37CD, 0xD2E138C4, 0x16263806);
    WordIs(x, 55, 0x3835B44B, 0x74458547, 0x00000F00, 0x000018C0);
  }

  lemma Words56(x: seq<word>)
    requires BlockOfAbc(x)
    ensures W(x, 56) == Value(0x651D16A0) && W(x, 57) == Value(0x62658CA1)
    ensures W(x, 58) == Value(0x458544D6) && W(x, 59) == Value(0x44584CB7)
    ensures W(x, 60) == Value(0x7BA06619) && W(x, 61) == Value(0x6380AEA2)
    ensures W(x, 62) == Value(0x0AE55269) && W(x, 63) == Value(0x627B49A1)
  {
    hide W, Value;
    Words40(x);
    Words48(x);
    WordIs(x, 56, 0x0000F600, 0xDA9415ED, 0x3AFB5079, 0xD2E138C4);
    WordIs(x, 57, 0x1E84C7A3, 0x26380A16, 0x898E04E5, 0x00000F00);
    WordIs(x, 58, 0x98E04D98, 0x626383A1, 0xE2BA3C2B, 0x3AFB5079);
    WordIs(x, 59, 0x651D16A0, 0x4EBF54DE, 0x000060C0, 0x898E04E5);
    WordIs(x, 60, 0x62658CA1, 0x3835B44B, 0x053A37CD, 0xE2BA3C2B);
    WordIs(x, 61, 0x458544D6, 0x0000F600, 0x74458547, 0x000060C0);
    WordIs(x, 62, 0x44584CB7, 0x1E84C7A3, 0xDA9415ED, 0x053A37CD);
    WordIs(x, 63, 0x7BA06619, 0x98E04D98, 0x26380A16, 0x74458547);
  }

  lemma Words64(x: seq<word>)
    requires BlockOfAbc(x)
    ensures W(x, 64) == Value(0x7CD45C9D) && W(x, 65) == Value(0x000F0000)
    ensures W(x, 66) == Value(0xFB50753A) && W(x, 67) == Value(0xEC6765E8)
    ensures W(x, 68) == Value(0xBA3C2BE2) && W(x, 69) == Value(0x0060C000)
    ensures W(x, 70) == Value(0x3A37CD05) && W(x, 71) == Value(0x458546F4)
  {
    hide W, Value;
    Words48(x);
    Words56(x);
    WordIs(x, 64, 0x6380AEA2, 0x651D16A0, 0x626383A1, 0xDA9415ED);
    WordIs(x, 65, 0x0AE55269, 0x62658CA1, 0x4EBF54DE, 0x26380A16);
    WordIs(x, 66, 0x627B49A1, 0x458544D6, 0x3835B44B, 0x626383A1);
    WordIs(x, 67, 0x7CD45C9D, 0x44584CB7, 0x0000F600, 0x4EBF54DE);
    WordIs(x, 68, 0x000F0000, 0x7BA06619, 0x1E84C7A3, 0x3835B44B);
    WordIs(x, 69, 0xFB50753A, 0x6380AEA2, 0x98E04D98, 0x0000F600);
    WordIs(x, 70, 0xEC6765E8, 0x0AE55269, 0x651D16A0, 0x1E84C7A3);
    WordIs(x, 71, 0xBA3C2BE2, 0x627B49A1, 0x62658CA1, 0x98E04D98);
  }

  lemma Words72(x: seq<word>)
    requires BlockOfAbc(x)
    ensures W(x, 72) == Value(0xB8599DD6) && W(x, 73) == Value(0x380A1A26)
    ensures W(x, 74) == Value(0x01E02203) && W(x, 75) == Value(0xE7CC3456)
    ensures W(x, 76) == Value(0xE6E60B69) && W(x, 77) == Value(0x00F60A00)
    ensures W(x, 78) == Value(0x5795EF4F) && W(x, 79) == Value(0x822E0879)
  {
    hide W, Value;
    Words56(x);
    Words64(x);
    WordIs(x, 72, 0x0060C000, 0x7CD45C9D, 0x458544D6, 0x651D16A0);
    WordIs(x, 73, 0x3A37CD05, 0x000F0000, 0x44584CB7, 0x62658CA1);
    WordIs(x, 74, 0x458546F4, 0xFB50753A, 0x7BA06619, 0x458544D6);
    WordIs(x, 75, 0xB8599DD6, 0xEC6765E8, 0x6380AEA2, 0x44584CB7);
    WordIs(x, 76, 0x380A1A26, 0xBA3C2BE2, 0x0AE55269, 0x7BA06619);
    WordIs(x, 77, 0x01E02203, 0x0060C000, 0x627B49A1, 0x6380AEA2);
    WordIs(x, 78, 0xE7CC3456, 0x3A37CD05, 0x7CD45C9D, 0x0AE55269);
    WordIs(x, 79, 0xE6E60B69, 0x458546F4, 0x000F0000, 0x627B49A1);
  }

  // --- the eighty steps ---

  lemma After0(x: seq<word>)
    requires BlockOfAbc(x)
    ensures Steps(0, IV, x) == FiveWords(0x67452301, 0xEFCDAB89, 0x98BADCFE, 0x10325476, 0xC3D2E1F0)
  {
  }

  lemma After8(x: seq<word>)
    requires BlockOfAbc(x)
    ensures Steps(8, IV, x) == FiveWords(0x9E8C07D4, 0x993E30C1, 0x0FF1F290, 0xB3F52677, 0xF3763846)
  {
    hide Steps, W, Bits;
    After0(x);
    Words0(x);
    StepIs(0, x, 0x67452301, 0xEFCDAB89, 0x98BADCFE, 0x10325476, 0xC3D2E1F0,
      0xE8A4602C, 0x98BADCFE, 0x61626380, 0x5A827999, 0x0116FC33, 3);
    StepIs(1, x, 0x0116FC33, 0x67452301, 0x7BF36AE2, 0x98BADCFE, 0x10325476,
      0x22DF8660, 0xFBFBFEFE, 0x00000000, 0x5A827999, 0x8990536D, 1);
    StepIs(2, x, 0x8990536D, 0x0116FC33, 0x59D148C0, 0x7BF36AE2, 0x98BADCFE,
      0x320A6DB1, 0x7BF14AC0, 0x00000000, 0x5A827999, 0xA1390F08, 1);
    StepIs(3, x, 0xA1390F08, 0x8990536D, 0xC045BF0C, 0x59D148C0, 0x7BF36AE2,
      0x2721E114, 0xD0411B8C, 0x00000000, 0x5A827999, 0xCDD8E11B, 1);
    StepIs(4, x, 0xCDD8E11B, 0xA1390F08, 0x626414DB, 0xC045BF0C, 0x59D148C0,
      0xBB1C2379, 0x6064B40C, 0x00000000, 0x5A827999, 0xCFD499DE, 1);
    StepIs(5, x, 0xCFD499DE, 0xCDD8E11B, 0x284E43C2, 0x626414DB, 0xC045BF0C,
      0xFA933BD9, 0x2A6C55C2, 0x00000000, 0x5A827999, 0x3FC7CA40, 2);
    StepIs(6, x, 0x3FC7CA40, 0xCFD499DE, 0xF3763846, 0x284E43C2, 0x626414DB,
      0xF8F94807, 0xE35E5A46, 0x00000000, 0x5A827999, 0x993E30C1, 2);
    StepIs(7, x, 0x993E30C1, 0x3FC7CA40, 0xB3F52677, 0xF3763846, 0x284E43C2,
      0x27C61833, 0xF3F53246, 0x00000000, 0x5A827999, 0x9E8C07D4, 1);
  }

  lemma After16(x: seq<word>)
    requires BlockOfAbc(x)
    ensures Steps(16, IV, x) == FiveWords(0x20BDD62F, 0x196BEE77, 0x644A3DA5, 0x1181ED99, 0x18C623F9)
  {
    hide Steps, W, Bits;
    After8(x);
    Words8(x);
    StepIs(8, x, 0x9E8C07D4, 0x993E30C1, 0x0FF1F290, 0xB3F52677, 0xF3763846,
      0xD180FA93, 0x2BF136B6, 0x00000000, 0x5A827999, 0x4B6AE328, 2);
    StepIs(9, x, 0x4B6AE328, 0x9E8C07D4, 0x664F8C30, 0x0FF1F290, 0xB3F52677,
      0x6D5C6509, 0x077DF410, 0x00000000, 0x5A827999, 0x8351F929, 1);
    StepIs(10, x, 0x8351F929, 0x4B6AE328, 0x27A301F5, 0x664F8C30, 0x0FF1F290,
      0x6A3F2530, 0x27270D30, 0x00000000, 0x5A827999, 0xFBDA9E89, 0);
    StepIs(11, x, 0xFBDA9E89, 0x8351F929, 0x12DAB8CA, 0x27A301F5, 0x664F8C30,
      0x7B53D13F, 0x26F2B8DC, 0x00000000, 0x5A827999, 0x63188FE4, 1);
    StepIs(12, x, 0x63188FE4, 0xFBDA9E89, 0x60D47E4A, 0x12DAB8CA, 0x27A301F5,
      0x6311FC8C, 0x60D03E4A, 0x00000000, 0x5A827999, 0x4607B664, 1);
    StepIs(13, x, 0x4607B664, 0x63188FE4, 0x7EF6A7A2, 0x60D47E4A, 0x12DAB8CA,
      0xC0F6CC88, 0x62D4F7AA, 0x00000000, 0x5A827999, 0x9128F695, 1);
    StepIs(14, x, 0x9128F695, 0x4607B664, 0x18C623F9, 0x7EF6A7A2, 0x60D47E4A,
      0x251ED2B2, 0x38F623E2, 0x00000000, 0x5A827999, 0x196BEE77, 1);
    StepIs(15, x, 0x196BEE77, 0x9128F695, 0x1181ED99, 0x18C623F9, 0x7EF6A7A2,
      0x2D7DCEE3, 0x19C6E5F9, 0x00000018, 0x5A827999, 0x20BDD62F, 1);
  }

  lemma After24(x: seq<word>)
    requires BlockOfAbc(x)
    ensures Steps(24, IV, x) == FiveWords(0xD541F12D, 0x21283486, 0x0CE88EFF, 0x868DEC32, 0x7F67875F)
  {
    hide Steps, W, Bits;
    After16(x);
    Words16(x);
    StepIs(16, x, 0x20BDD62F, 0x196BEE77, 0x644A3DA5, 0x1181ED99, 0x18C623F9,
      0x17BAC5E4, 0x00CA2DAD, 0xC2C4C700, 0x5A827999, 0x4E925823, 1);
    StepIs(17, x, 0x4E925823, 0x20BDD62F, 0xC65AFB9D, 0x644A3DA5, 0x1181ED99,
      0xD24B0469, 0x445AFB8D, 0x00000000, 0x5A827999, 0x82AA6728, 1);
    StepIs(18, x, 0x82AA6728, 0x4E925823, 0xC82F758B, 0xC65AFB9D, 0x644A3DA5,
      0x554CE510, 0xC84AF39F, 0x00000030, 0x5A827999, 0xDC64901D, 1);
    StepIs(19, x, 0xDC64901D, 0x82AA6728, 0xD3A49608, 0xC82F758B, 0xC65AFB9D,
      0x8C9203BB, 0xCAA5168B, 0x85898E01, 0x5A827999, 0xFD9E1D7D, 2);
    StepIs(20, x, 0xFD9E1D7D, 0xDC64901D, 0x20AA99CA, 0xD3A49608, 0xC82F758B,
      0xB3C3AFBF, 0x2F6A9FDF, 0x00000000, 0x6ED9EBA1, 0x1A37B0CA, 2);
    StepIs(21, x, 0x1A37B0CA, 0xFD9E1D7D, 0x77192407, 0x20AA99CA, 0xD3A49608,
      0x46F61943, 0xAA2DA0B0, 0x00000060, 0x6ED9EBA1, 0x33A23BFC, 2);
    StepIs(22, x, 0x33A23BFC, 0x1A37B0CA, 0x7F67875F, 0x77192407, 0x20AA99CA,
      0x74477F86, 0x12491392, 0x0B131C03, 0x6ED9EBA1, 0x21283486, 1);
    StepIs(23, x, 0x21283486, 0x33A23BFC, 0x868DEC32, 0x7F67875F, 0x77192407,
      0x250690C4, 0xCA485091, 0x00000030, 0x6ED9EBA1, 0xD541F12D, 1);
  }

  lemma After32(x: seq<word>)
    requires BlockOfAbc(x)
    ensures Steps(32, IV, x) == FiveWords(0x3B845D33, 0x1267B407, 0x717EEBD7, 0xA0DC2D4B, 0xD2AA1365)
  {
    hide Steps, W, Bits;
    After24(x);
    Words24(x);
    StepIs(24, x, 0xD541F12D, 0x21283486, 0x0CE88EFF, 0x868DEC32, 0x7F67875F,
      0xA83E25BA, 0xAB4D564B, 0x85898EC1, 0x6ED9EBA1, 0xC7567DC6, 2);
    StepIs(25, x, 0xC7567DC6, 0xD541F12D, 0x884A0D21, 0x0CE88EFF, 0x868DEC32,
      0xEACFB8D8, 0x51E372F3, 0x16263806, 0x6ED9EBA1, 0x48413BA4, 2);
    StepIs(26, x, 0x48413BA4, 0xC7567DC6, 0x75507C4B, 0x884A0D21, 0x0CE88EFF,
      0x08277489, 0x3A4C0CAC, 0x00000000, 0x6ED9EBA1, 0xBE35FBD5, 0);
    StepIs(27, x, 0xBE35FBD5, 0x48413BA4, 0xB1D59F71, 0x75507C4B, 0x884A0D21,
      0xC6BF7AB7, 0x8CC4D89E, 0x00000180, 0x6ED9EBA1, 0x4AA84D97, 2);
    StepIs(28, x, 0x4AA84D97, 0xBE35FBD5, 0x12104EE9, 0xB1D59F71, 0x75507C4B,
      0x5509B2E9, 0x1DF02A4D, 0x2C4C700C, 0x6ED9EBA1, 0x8370B52E, 1);
    StepIs(29, x, 0x8370B52E, 0x4AA84D97, 0x6F8D7EF5, 0x12104EE9, 0xB1D59F71,
      0x6E16A5D0, 0x37357D8B, 0x000000F0, 0x6ED9EBA1, 0xC5FBAF5D, 1);
    StepIs(30, x, 0xC5FBAF5D, 0x8370B52E, 0xD2AA1365, 0x6F8D7EF5, 0x12104EE9,
      0xBF75EBB8, 0x3E57D8BE, 0x93AFB507, 0x6ED9EBA1, 0x1267B407, 2);
    StepIs(31, x, 0x1267B407, 0xC5FBAF5D, 0xA0DC2D4B, 0xD2AA1365, 0x6F8D7EF5,
      0x4CF680E2, 0xB78D9173, 0x5898E048, 0x6ED9EBA1, 0x3B845D33, 2);
  }

  lemma After40(x: seq<word>)
    requires BlockOfAbc(x)
    ensures Steps(40, IV, x) == FiveWords(0x32DE1CBA, 0x4C986405, 0xF718E5CF, 0x03D447F6, 0xF72EEC32)
  {
    hide Steps, W, Bits;
    After32(x);
    Words32(x);
    StepIs(32, x, 0x3B845D33, 0x1267B407, 0x717EEBD7, 0xA0DC2D4B, 0xD2AA1365,
      0x708BA667, 0xC3C5729B, 0x8E9A9202, 0x6ED9EBA1, 0x046FAA0A, 3);
    StepIs(33, x, 0x046FAA0A, 0x3B845D33, 0xC499ED01, 0x717EEBD7, 0xA0DC2D4B,
      0x8DF54140, 0x8E635BE5, 0x00000600, 0x6ED9EBA1, 0x2C0EBC11, 2);
    StepIs(34, x, 0x2C0EBC11, 0x046FAA0A, 0xCEE1174C, 0xC499ED01, 0x717EEBD7,
      0x81D78225, 0x0E175047, 0xB131C0F0, 0x6ED9EBA1, 0x21796AD4, 2);
    StepIs(35, x, 0x21796AD4, 0x2C0EBC11, 0x811BEA82, 0xCEE1174C, 0xC499ED01,
      0x2F2D5A84, 0x63F441DF, 0x16263BC6, 0x6ED9EBA1, 0xDCBBB0CB, 1);
    StepIs(36, x, 0xDCBBB0CB, 0x21796AD4, 0x4B03AF04, 0x811BEA82, 0xCEE1174C,
      0x9776197B, 0xEB612F52, 0x4EBED41E, 0x6ED9EBA1, 0x0F511FD8, 3);
    StepIs(37, x, 0x0F511FD8, 0xDCBBB0CB, 0x085E5AB5, 0x4B03AF04, 0x811BEA82,
      0xEA23FB01, 0x9FE6457A, 0x626380A1, 0x6ED9EBA1, 0xDC63973F, 2);
    StepIs(38, x, 0xDC63973F, 0x0F511FD8, 0xF72EEC32, 0x085E5AB5, 0x4B03AF04,
      0x8C72E7FB, 0xF021A95F, 0x16263806, 0x6ED9EBA1, 0x4C986405, 2);
    StepIs(39, x, 0x4C986405, 0xDC63973F, 0x03D447F6, 0xF72EEC32, 0x085E5AB5,
      0x930C80A9, 0x28993CFB, 0x000018C0, 0x6ED9EBA1, 0x32DE1CBA, 1);
  }

  lemma After48(x: seq<word>)
    requires BlockOfAbc(x)
    ensures Steps(48, IV, x) == FiveWords(0xBEAD02CA, 0xA01B846C, 0x8714787C, 0x503CA382, 0xFB86C6AB)
  {
    hide Steps, W, Bits;
    After40(x);
    Words40(x);
    StepIs(40, x, 0x32DE1CBA, 0x4C986405, 0xF718E5CF, 0x03D447F6, 0xF72EEC32,
      0x5BC39746, 0x479865C7, 0xD2E138C4, 0x8F1BBCDC, 0xFC87DEDF, 2);
    StepIs(41, x, 0xFC87DEDF, 0x32DE1CBA, 0x53261901, 0xF718E5CF, 0x03D447F6,
      0x90FBDBFF, 0x731E1D8B, 0x00000F00, 0x8F1BBCDC, 0x970A0D5C, 1);
    StepIs(42, x, 0x970A0D5C, 0xFC87DEDF, 0x8CB7872E, 0x53261901, 0xF718E5CF,
      0xE141AB92, 0xDCA79F0F, 0x3AFB5079, 0x8F1BBCDC, 0x7F193DC5, 3);
    StepIs(43, x, 0x7F193DC5, 0x970A0D5C, 0xFF21F7B7, 0x8CB7872E, 0x53261901,
      0xE327B8AF, 0x9F23873E, 0x898E04E5, 0x8F1BBCDC, 0xEE1B1AAF, 2);
    StepIs(44, x, 0xEE1B1AAF, 0x7F193DC5, 0x25C28357, 0xFF21F7B7, 0x8CB7872E,
      0xC36355FD, 0x7F01B7D7, 0xE2BA3C2B, 0x8F1BBCDC, 0x40F28E09, 3);
    StepIs(45, x, 0x40F28E09, 0xEE1B1AAF, 0x5FC64F71, 0x25C28357, 0xFF21F7B7,
      0x1E51C128, 0x6FC20B77, 0x000060C0, 0x8F1BBCDC, 0x1C51E1F2, 2);
    StepIs(46, x, 0x1C51E1F2, 0x40F28E09, 0xFB86C6AB, 0x5FC64F71, 0x25C28357,
      0x8A3C3E43, 0x5BC6CE29, 0x053A37CD, 0x8F1BBCDC, 0xA01B846C, 1);
    StepIs(47, x, 0xA01B846C, 0x1C51E1F2, 0x503CA382, 0xFB86C6AB, 0x5FC64F71,
      0x03708D94, 0x5814E3A2, 0x74458547, 0x8F1BBCDC, 0xBEAD02CA, 1);
  }

  lemma After56(x: seq<word>)
    requires BlockOfAbc(x)
    ensures Steps(56, IV, x) == FiveWords(0x5E6456AF, 0x7B71F76D, 0x09FA7C76, 0x792410DB, 0x8E11EB59)
  {
    hide Steps, W, Bits;
    After48(x);
    Words48(x);
    StepIs(48, x, 0xBEAD02CA, 0xA01B846C, 0x8714787C, 0x503CA382, 0xFB86C6AB,
      0xD5A05957, 0x801CA06C, 0xDA9415ED, 0x8F1BBCDC, 0xBAF39337, 3);
    StepIs(49, x, 0xBAF39337, 0xBEAD02CA, 0x2806E11B, 0x8714787C, 0x503CA382,
      0x5E7266F7, 0xAE04605A, 0x26380A16, 0x8F1BBCDC, 0x120731C5, 2);
    StepIs(50, x, 0x120731C5, 0xBAF39337, 0xAFAB40B2, 0x2806E11B, 0x8714787C,
      0x40E638A2, 0xAAA3C133, 0x626383A1, 0x8F1BBCDC, 0x641DB2CE, 2);
    StepIs(51, x, 0x641DB2CE, 0x120731C5, 0xEEBCE4CD, 0xAFAB40B2, 0x2806E11B,
      0x83B659CC, 0xAEAF60C5, 0x4EBF54DE, 0x8F1BBCDC, 0x3847AD66, 2);
    StepIs(52, x, 0x3847AD66, 0x641DB2CE, 0x4481CC71, 0xEEBCE4CD, 0xAFAB40B2,
      0x08F5ACC7, 0x649DE4CD, 0x3835B44B, 0x8F1BBCDC, 0xE490436D, 1);
    StepIs(53, x, 0xE490436D, 0x3847AD66, 0x99076CB3, 0x4481CC71, 0xEEBCE4CD,
      0x92086DBC, 0x1807EC73, 0x0000F600, 0x8F1BBCDC, 0x27E9F1D8, 2);
    StepIs(54, x, 0x27E9F1D8, 0xE490436D, 0x8E11EB59, 0x99076CB3, 0x4481CC71,
      0xFD3E3B04, 0x8C116B79, 0x1E84C7A3, 0x8F1BBCDC, 0x7B71F76D, 2);
    StepIs(55, x, 0x7B71F76D, 0x27E9F1D8, 0x792410DB, 0x8E11EB59, 0x99076CB3,
      0x6E3EEDAF, 0x2F21F1D9, 0x98E04D98, 0x8F1BBCDC, 0x5E6456AF, 2);
  }

  lemma After64(x: seq<word>)
    requires BlockOfAbc(x)
    ensures Steps(64, IV, x) == FiveWords(0x6B61C9E1, 0xB66C020B, 0x9523272C, 0xF5D5B051, 0x8FD4B796)
  {
    hide Steps, W, Bits;
    After56(x);
    Words56(x);
    StepIs(56, x, 0x5E6456AF, 0x7B71F76D, 0x09FA7C76, 0x792410DB, 0x8E11EB59,
      0xCC8AD5EB, 0x7970747F, 0x651D16A0, 0x8F1BBCDC, 0xC846093F, 2);
    StepIs(57, x, 0xC846093F, 0x5E6456AF, 0x5EDC7DDB, 0x09FA7C76, 0x792410DB,
      0x08C127F9, 0x5EFC7CFF, 0x62658CA1, 0x8F1BBCDC, 0xD262FF50, 1);
    StepIs(58, x, 0xD262FF50, 0xC846093F, 0xD79915AB, 0x5EDC7DDB, 0x09FA7C76,
      0x4C5FEA1A, 0xDEDC1DBB, 0x458544D6, 0x8F1BBCDC, 0x09D785FD, 2);
    StepIs(59, x, 0x09D785FD, 0xD262FF50, 0xF211824F, 0xD79915AB, 0x5EDC7DDB,
      0x3AF0BFA1, 0xD211974B, 0x44584CB7, 0x8F1BBCDC, 0x3F52DE5A, 2);
    StepIs(60, x, 0x3F52DE5A, 0x09D785FD, 0x3498BFD4, 0xF211824F, 0xD79915AB,
      0xEA5BCB47, 0xCF5EB866, 0x7BA06619, 0xCA62C1D6, 0xD756C147, 3);
    StepIs(61, x, 0xD756C147, 0x3F52DE5A, 0x4275E17F, 0x3498BFD4, 0xF211824F,
      0xEAD828FA, 0x49BF80F1, 0x6380AEA2, 0xCA62C1D6, 0x548C9CB2, 3);
    StepIs(62, x, 0x548C9CB2, 0xD756C147, 0x8FD4B796, 0x4275E17F, 0x3498BFD4,
      0x9193964A, 0x1AF797AE, 0x0AE55269, 0xCA62C1D6, 0xB66C020B, 1);
    StepIs(63, x, 0xB66C020B, 0x548C9CB2, 0xF5D5B051, 0x8FD4B796, 0x4275E17F,
      0xCD804176, 0x2E8D9B75, 0x627B49A1, 0xCA62C1D6, 0x6B61C9E1, 2);
  }

  lemma After72(x: seq<word>)
    requires BlockOfAbc(x)
    ensures Steps(72, IV, x) == FiveWords(0x39859DE7, 0xC199F8C7, 0x8FC96230, 0x125C24F0, 0xDE37534A)
  {
    hide Steps, W, Bits;
    After64(x);
    Words64(x);
    StepIs(64, x, 0x6B61C9E1, 0xB66C020B, 0x9523272C, 0xF5D5B051, 0x8FD4B796,
      0x6C393C2D, 0xD69A9576, 0x7CD45C9D, 0xCA62C1D6, 0x19DFA7AC, 3);
    StepIs(65, x, 0x19DFA7AC, 0x6B61C9E1, 0xED9B0082, 0x9523272C, 0xF5D5B051,
      0x3BF4F583, 0x13D9EE4F, 0x000F0000, 0xCA62C1D6, 0x101655F9, 2);
    StepIs(66, x, 0x101655F9, 0x19DFA7AC, 0x5AD87278, 0xED9B0082, 0x9523272C,
      0x02CABF22, 0xAE9CD556, 0xFB50753A, 0xCA62C1D6, 0x0C3DF2B4, 3);
    StepIs(67, x, 0x0C3DF2B4, 0x101655F9, 0x0677E9EB, 0x5AD87278, 0xED9B0082,
      0x87BE5681, 0x4CB9CE6A, 0xEC6765E8, 0xCA62C1D6, 0x78DD4D2B, 3);
    StepIs(68, x, 0x78DD4D2B, 0x0C3DF2B4, 0x4405957E, 0x0677E9EB, 0x5AD87278,
      0x1BA9A56F, 0x4E4F8E21, 0xBA3C2BE2, 0xCA62C1D6, 0x497093C0, 2);
    StepIs(69, x, 0x497093C0, 0x78DD4D2B, 0x030F7CAD, 0x4405957E, 0x0677E9EB,
      0x2E127809, 0x3FD7A4F8, 0x0060C000, 0xCA62C1D6, 0x3F2588C2, 1);
    StepIs(70, x, 0x3F2588C2, 0x497093C0, 0xDE37534A, 0x030F7CAD, 0x4405957E,
      0xE4B11847, 0x9448BC27, 0x3A37CD05, 0xCA62C1D6, 0xC199F8C7, 2);
    StepIs(71, x, 0xC199F8C7, 0x3F2588C2, 0x125C24F0, 0xDE37534A, 0x030F7CAD,
      0x333F18F8, 0xF34EFF78, 0x458546F4, 0xCA62C1D6, 0x39859DE7, 2);
  }

  lemma After80(x: seq<word>)
    requires BlockOfAbc(x)
    ensures Steps(80, IV, x) == FiveWords(0x42541B35, 0x5738D5E1, 0x21834873, 0x681E6DF6, 0xD8FDF6AD)
  {
    hide Steps, W, Bits;
    After72(x);
    Words72(x);
    StepIs(72, x, 0x39859DE7, 0xC199F8C7, 0x8FC96230, 0x125C24F0, 0xDE37534A,
      0x30B3BCE7, 0x5C0CBE07, 0xB8599DD6, 0xCA62C1D6, 0xEDB42DE4, 2);
    StepIs(73, x, 0xEDB42DE4, 0x39859DE7, 0xF0667E31, 0x8FC96230, 0x125C24F0,
      0xB685BC9D, 0x462A81E6, 0x380A1A26, 0xCA62C1D6, 0x11793F6F, 2);
    StepIs(74, x, 0x11793F6F, 0xEDB42DE4, 0xCE616779, 0xF0667E31, 0x8FC96230,
      0x2F27EDE2, 0xD3B334AC, 0x01E02203, 0xCA62C1D6, 0x5EE76897, 2);
    StepIs(75, x, 0x5EE76897, 0x11793F6F, 0x3B6D0B79, 0xCE616779, 0xF0667E31,
      0xDCED12EB, 0xE475536F, 0xE7CC3456, 0xCA62C1D6, 0x63F7DAB7, 4);
    StepIs(76, x, 0x63F7DAB7, 0x5EE76897, 0xC45E4FDB, 0x3B6D0B79, 0xCE616779,
      0x7EFB56EC, 0xA1D42C35, 0xE6E60B69, 0xCA62C1D6, 0xA079B7D9, 3);
    StepIs(77, x, 0xA079B7D9, 0x63F7DAB7, 0xD7B9DA25, 0xC45E4FDB, 0x3B6D0B79,
      0x0F36FB34, 0x70104F49, 0x00F60A00, 0xCA62C1D6, 0x860D21CC, 1);
    StepIs(78, x, 0x860D21CC, 0xA079B7D9, 0xD8FDF6AD, 0xD7B9DA25, 0xC45E4FDB,
      0xC1A43990, 0xAF3D9B51, 0x5795EF4F, 0xCA62C1D6, 0x5738D5E1, 3);
    StepIs(79, x, 0x5738D5E1, 0x860D21CC, 0x681E6DF6, 0xD8FDF6AD, 0xD7B9DA25,
      0xE71ABC2A, 0x36EEBA97, 0x822E0879, 0xCA62C1D6, 0x42541B35, 3);
  }

  // --- the padded message ---

  lemma PaddedAbc(block: Bytes)
    requires block == Padded([0x61, 0x62, 0x63], LengthField(3))
    ensures |block| == 64 && BlockOfAbc(WordsOfBlock(block))
  {
    assert LengthField(3) == BigBytes(0) + BigBytes(24);
    WordOfBytes(24);
    hide LengthField, BigBytes;
    var x := WordsOfBlock(block);
    assert block[0..4] == [0x61, 0x62, 0x63, 0x80];
    assert block[56..60] == BigBytes(0) && block[60..64] == BigBytes(24);
    ZeroWord();
    forall k | 0 < k < 15 ensures x[k] == 0 {
      assert block[4 * k..4 * k + 4] == [0, 0, 0, 0];
    }
  }

  lemma ZeroWord()
    ensures BigWord([0, 0, 0, 0]) == 0 && BigBytes(0) == [0, 0, 0, 0]
  {
  }

  lemma Registers(block: Bytes)
    requires |block| == 64 && BlockOfAbc(WordsOfBlock(block))
    ensures CompressBlock(IV, block) ==
      Regs(0xA9993E36, 0x4706816A, 0xBA3E2571, 0x7850C26C, 0x9CD0D89D)
  {
    hide Steps;
    After80(WordsOfBlock(block));
    assert Value(0x42541B35) == 0x42541B35 && Value(0x5738D5E1) == 0x5738D5E1;
    assert Value(0x21834873) == 0x21834873 && Value(0x681E6DF6) == 0x681E6DF6 && Value(0xD8FDF6AD) == 0xD8FDF6AD;
    hide Value;
  }

  lemma DigestBytes()
    ensures RegsBytes(Regs(0xA9993E36, 0x4706816A, 0xBA3E2571, 0x7850C26C, 0x9CD0D89D)) == [
      0xA9, 0x99, 0x3E, 0x36, 0x47, 0x06, 0x81, 0x6A, 0xBA, 0x3E, 0x25, 0x71,
      0x78, 0x50, 0xC2, 0x6C, 0x9C, 0xD0, 0xD8, 0x9D]
  {
  }

  /** SHA-1 ("abc") = a9993e364706816aba3e25717850c26c9cd0d89d. */
  lemma DigestOfAbc()
    ensures Digest([0x61, 0x62, 0x63]) == [
      0xA9, 0x99, 0x3E, 0x36, 0x47, 0x06, 0x81, 0x6A, 0xBA, 0x3E, 0x25, 0x71,
      0x78, 0x50, 0xC2, 0x6C, 0x9C, 0xD0, 0xD8, 0x9D]
  {
    hide CompressBlock, WordsOfBlock, LengthField, Padded, RegsBytes, Whole;
    var m: Bytes := [0x61, 0x62, 0x63];
    var block := Padded(m, LengthField(|m|));
    PaddedAbc(block);
    Registers(block);
    WholeAnd(0, 0);
    ChainBlock(Compress, IV, [], block);
    assert [] + block == block;
    DigestBytes();
  }
}
