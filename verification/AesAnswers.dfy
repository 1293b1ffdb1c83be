/** Known answers of FIPS 197: the key expansions of its appendix A for the three key sizes, and the cipher
    example of its appendix B. */
module AesAnswers {
  import opened GaloisField
  import opened Rijndael
  import opened AesCipher
  import opened AesSBox
  import opened Words
  import AesBlock

  /** A column written as the standard prints words, first byte first. */
  function Word(w: bv32): Column {
    Column((w >> 24) as bv8, ((w >> 16) & 0xFF) as bv8, ((w >> 8) & 0xFF) as bv8, (w & 0xFF) as bv8)
  }

  function Rotated(w: bv32): bv32 {
    (w << 8) | (w >> 24)
  }

  lemma WordAdd(v: bv32, w: bv32)
    ensures AddColumn(Word(v), Word(w)) == Word(Xor(v, w))
  {
  }

  lemma WordRotate(w: bv32)
    ensures RotWord(Word(w)) == Word(Rotated(w))
  {
  }

  // --- key expansion, group by group ---

  ghost predicate Substituted(v: bv32, s: bv32) {
    SubColumn(Word(v)) == Word(s)
  }

  /** The first word of a group, from the words before it. */
  lemma GroupFirst(key: seq<Column>, i: nat, u: bv32, t: bv32, s: bv32, rc: bv32)
    requires KeyLength(|key|) && i >= |key| && i % |key| == 0
    requires KeyWord(key, i - |key|) == Word(u) && KeyWord(key, i - 1) == Word(t)
    requires Substituted(Rotated(t), s) && Rcon(i / |key|) == Word(rc)
    ensures KeyWord(key, i) == Word(Xor(u, Xor(s, rc)))
  {
    WordRotate(t);
    WordAdd(s, rc);
    WordAdd(u, Xor(s, rc));
    hide Word, Xor, AddColumn, SubColumn, Rcon, RotWord, Rotated;
  }

  lemma GroupMiddle(key: seq<Column>, i: nat, u: bv32, t: bv32, s: bv32)
    requires |key| == 8 && i >= 8 && i % 8 == 4
    requires KeyWord(key, i - 8) == Word(u) && KeyWord(key, i - 1) == Word(t) && Substituted(t, s)
    ensures KeyWord(key, i) == Word(Xor(u, s))
  {
    WordAdd(u, s);
    hide Word, Xor, AddColumn, SubColumn;
  }

  lemma GroupNext(key: seq<Column>, i: nat, u: bv32, t: bv32)
    requires KeyLength(|key|) && i >= |key| && i % |key| != 0 && !(|key| == 8 && i % 8 == 4)
    requires KeyWord(key, i - |key|) == Word(u) && KeyWord(key, i - 1) == Word(t)
    ensures KeyWord(key, i) == Word(Xor(u, t))
  {
    WordAdd(u, t);
    hide Word, Xor, AddColumn, SubColumn;
  }

  ghost predicate Two(key: seq<Column>, i: nat, a: bv32, b: bv32)
    requires KeyLength(|key|)
  {
    KeyWord(key, i) == Word(a) && KeyWord(key, i + 1) == Word(b)
  }

  ghost predicate Four(key: seq<Column>, i: nat, a: bv32, b: bv32, c: bv32, d: bv32)
    requires KeyLength(|key|)
  {
    Two(key, i, a, b) && Two(key, i + 2, c, d)
  }

  /** The place of a word within its group. */
  lemma InGroup(nk: nat, j: nat, k: nat)
    requires (nk == 4 || nk == 6 || nk == 8) && k < nk
    ensures (nk * j + nk + k) % nk == k && (nk * j + nk) / nk == j + 1
  {
    if nk == 4 {
      assert (4 * (j + 1) + k) / 4 == j + 1;
    } else if nk == 6 {
      assert (6 * (j + 1) + k) / 6 == j + 1;
    } else {
      assert (8 * (j + 1) + k) / 8 == j + 1;
    }
  }

  lemma Group4(key: seq<Column>, j: nat, a: bv32, b: bv32, c: bv32, d: bv32, s: bv32, rc: bv32)
    requires |key| == 4 && Four(key, 4 * j, a, b, c, d) && Substituted(Rotated(d), s) && Rcon(j + 1) == Word(rc)
    ensures var e := Xor(a, Xor(s, rc)); var f := Xor(b, e); var g := Xor(c, f);
      Four(key, 4 * j + 4, e, f, g, Xor(d, g))
  {
    hide KeyWord, Word, Xor, Substituted, Rotated, Rcon;
    var i, e := 4 * j + 4, Xor(a, Xor(s, rc));
    GroupFirst(key, i, a, d, s, rc);
    GroupNext(key, i + 1, b, e);
    GroupNext(key, i + 2, c, Xor(b, e));
    GroupNext(key, i + 3, d, Xor(c, Xor(b, e)));
  }

  lemma Group6(key: seq<Column>, j: nat, a: bv32, b: bv32, c: bv32, d: bv32, e: bv32, f: bv32, s: bv32, rc: bv32)
    requires |key| == 6 && Four(key, 6 * j, a, b, c, d) && Two(key, 6 * j + 4, e, f)
    requires Substituted(Rotated(f), s) && Rcon(j + 1) == Word(rc)
    ensures var g := Xor(a, Xor(s, rc)); var h := Xor(b, g); var k := Xor(c, h); var l := Xor(d, k); var m := Xor(e, l);
      Four(key, 6 * j + 6, g, h, k, l) && Two(key, 6 * j + 10, m, Xor(f, m))
  {
    hide KeyWord, Word, Xor, Substituted, Rotated, Rcon;
    InGroup(6, j, 0);
    InGroup(6, j, 1);
    InGroup(6, j, 2);
    InGroup(6, j, 3);
    InGroup(6, j, 4);
    InGroup(6, j, 5);
    var i, g := 6 * j + 6, Xor(a, Xor(s, rc));
    var l := Xor(d, Xor(c, Xor(b, g)));
    GroupFirst(key, i, a, f, s, rc);
    GroupNext(key, i + 1, b, g);
    GroupNext(key, i + 2, c, Xor(b, g));
    GroupNext(key, i + 3, d, Xor(c, Xor(b, g)));
    GroupNext(key, i + 4, e, l);
    GroupNext(key, i + 5, f, Xor(e, l));
  }

  /** The first half of a group of eight words. */
  lemma Half8(key: seq<Column>, j: nat, a: bv32, b: bv32, c: bv32, d: bv32, last: bv32, s: bv32, rc: bv32)
    requires |key| == 8 && Four(key, 8 * j, a, b, c, d) && KeyWord(key, 8 * j + 7) == Word(last)
    requires Substituted(Rotated(last), s) && Rcon(j + 1) == Word(rc)
    ensures var e := Xor(a, Xor(s, rc)); var f := Xor(b, e); var g := Xor(c, f);
      Four(key, 8 * j + 8, e, f, g, Xor(d, g))
  {
    hide KeyWord, Word, Xor, Substituted, Rotated, Rcon;
    InGroup(8, j, 1);
    InGroup(8, j, 2);
    InGroup(8, j, 3);
    var i, e := 8 * j + 8, Xor(a, Xor(s, rc));
    GroupFirst(key, i, a, last, s, rc);
    GroupNext(key, i + 1, b, e);
    GroupNext(key, i + 2, c, Xor(b, e));
    GroupNext(key, i + 3, d, Xor(c, Xor(b, e)));
  }

  /** The second half; t substitutes the last word of the first. */
  lemma Rest8(key: seq<Column>, j: nat, a: bv32, b: bv32, c: bv32, d: bv32, last: bv32, t: bv32)
    requires |key| == 8 && Four(key, 8 * j + 4, a, b, c, d) && KeyWord(key, 8 * j + 11) == Word(last)
    requires Substituted(last, t)
    ensures var e := Xor(a, t); var f := Xor(b, e); var g := Xor(c, f);
      Four(key, 8 * j + 12, e, f, g, Xor(d, g))
  {
    hide KeyWord, Word, Xor, Substituted;
    InGroup(8, j, 5);
    InGroup(8, j, 6);
    InGroup(8, j, 7);
    var i, e := 8 * j + 12, Xor(a, t);
    GroupMiddle(key, i, a, last, t);
    GroupNext(key, i + 1, b, e);
    GroupNext(key, i + 2, c, Xor(b, e));
    GroupNext(key, i + 3, d, Xor(c, Xor(b, e)));
  }

  // --- appendix A of FIPS 197 ---

  const KEY_128: seq<Column> := [
    Word(0x2B7E1516), Word(0x28AED2A6), Word(0xABF71588), Word(0x09CF4F3C)]

  lemma First128()
    ensures |KEY_128| == 4
    ensures Four(KEY_128, 0, 0x2B7E1516, 0x28AED2A6, 0xABF71588, 0x09CF4F3C)
  {
    hide Word;
  }

  /** Appendix A.1: all words of the expansion. */
  lemma Expansion128()
    ensures |KEY_128| == 4
    ensures Four(KEY_128, 0, 0x2B7E1516, 0x28AED2A6, 0xABF71588, 0x09CF4F3C)
    ensures Four(KEY_128, 4, 0xA0FAFE17, 0x88542CB1, 0x23A33939, 0x2A6C7605)
    ensures Four(KEY_128, 8, 0xF2C295F2, 0x7A96B943, 0x5935807A, 0x7359F67F)
    ensures Four(KEY_128, 12, 0x3D80477D, 0x4716FE3E, 0x1E237E44, 0x6D7A883B)
    ensures Four(KEY_128, 16, 0xEF44A541, 0xA8525B7F, 0xB671253B, 0xDB0BAD00)
    ensures Four(KEY_128, 20, 0xD4D1C6F8, 0x7C839D87, 0xCAF2B8BC, 0x11F915BC)
    ensures Four(KEY_128, 24, 0x6D88A37A, 0x110B3EFD, 0xDBF98641, 0xCA0093FD)
    ensures Four(KEY_128, 28, 0x4E54F70E, 0x5F5FC9F3, 0x84A64FB2, 0x4EA6DC4F)
    ensures Four(KEY_128, 32, 0xEAD27321, 0xB58DBAD2, 0x312BF560, 0x7F8D292F)
    ensures Four(KEY_128, 36, 0xAC7766F3, 0x19FADC21, 0x28D12941, 0x575C006E)
    ensures Four(KEY_128, 40, 0xD014F9A8, 0xC9EE2589, 0xE13F0CC8, 0xB6630CA6)
  {
    First128();
    var key := KEY_128;
    hide KeyWord, SubByte;
    Row0(); Row3(); Row4(); RowC();
    Group4(key, 0, 0x2B7E1516, 0x28AED2A6, 0xABF71588, 0x09CF4F3C, 0x8A84EB01, 0x01000000);
    Row0(); Row2(); Row6(); Row7();
    Group4(key, 1, 0xA0FAFE17, 0x88542CB1, 0x23A33939, 0x2A6C7605, 0x50386BE5, 0x02000000);
    Row5(); Row7(); RowF();
    Group4(key, 2, 0xF2C295F2, 0x7A96B943, 0x5935807A, 0x7359F67F, 0xCB42D28F, 0x04000000);
    Row3(); Row6(); Row7(); Row8();
    Group4(key, 3, 0x3D80477D, 0x4716FE3E, 0x1E237E44, 0x6D7A883B, 0xDAC4E23C, 0x08000000);
    Row0(); RowA(); RowD();
    Group4(key, 4, 0xEF44A541, 0xA8525B7F, 0xB671253B, 0xDB0BAD00, 0x2B9563B9, 0x10000000);
    Row1(); RowB(); RowF();
    Group4(key, 5, 0xD4D1C6F8, 0x7C839D87, 0xCAF2B8BC, 0x11F915BC, 0x99596582, 0x20000000);
    Row0(); Row9(); RowC(); RowF();
    Group4(key, 6, 0x6D88A37A, 0x110B3EFD, 0xDBF98641, 0xCA0093FD, 0x63DC5474, 0x40000000);
    Row4(); RowA(); RowD();
    Group4(key, 7, 0x4E54F70E, 0x5F5FC9F3, 0x84A64FB2, 0x4EA6DC4F, 0x2486842F, 0x80000000);
    Row2(); Row7(); Row8();
    Group4(key, 8, 0xEAD27321, 0xB58DBAD2, 0x312BF560, 0x7F8D292F, 0x5DA515D2, 0x1B000000);
    Row0(); Row5(); Row6();
    Group4(key, 9, 0xAC7766F3, 0x19FADC21, 0x28D12941, 0x575C006E, 0x4A639F5B, 0x36000000);
  }

  const KEY_192: seq<Column> := [
    Word(0x8E73B0F7), Word(0xDA0E6452), Word(0xC810F32B), Word(0x809079E5),
    Word(0x62F8EAD2), Word(0x522C6B7B)]

  lemma First192()
    ensures |KEY_192| == 6
    ensures Four(KEY_192, 0, 0x8E73B0F7, 0xDA0E6452, 0xC810F32B, 0x809079E5)
    ensures Two(KEY_192, 4, 0x62F8EAD2, 0x522C6B7B)
  {
    hide Word;
  }

  /** Appendix A.2: all words of the expansion. */
  lemma Expansion192()
    ensures |KEY_192| == 6
    ensures Four(KEY_192, 0, 0x8E73B0F7, 0xDA0E6452, 0xC810F32B, 0x809079E5)
    ensures Four(KEY_192, 4, 0x62F8EAD2, 0x522C6B7B, 0xFE0C91F7, 0x2402F5A5)
    ensures Four(KEY_192, 8, 0xEC12068E, 0x6C827F6B, 0x0E7A95B9, 0x5C56FEC2)
    ensures Four(KEY_192, 12, 0x4DB7B4BD, 0x69B54118, 0x85A74796, 0xE92538FD)
    ensures Four(KEY_192, 16, 0xE75FAD44, 0xBB095386, 0x485AF057, 0x21EFB14F)
    ensures Four(KEY_192, 20, 0xA448F6D9, 0x4D6DCE24, 0xAA326360, 0x113B30E6)
    ensures Four(KEY_192, 24, 0xA25E7ED5, 0x83B1CF9A, 0x27F93943, 0x6A94F767)
    ensures Four(KEY_192, 28, 0xC0A69407, 0xD19DA4E1, 0xEC1786EB, 0x6FA64971)
    ensures Four(KEY_192, 32, 0x485F7032, 0x22CB8755, 0xE26D1352, 0x33F0B7B3)
    ensures Four(KEY_192, 36, 0x40BEEB28, 0x2F18A259, 0x6747D26B, 0x458C553E)
    ensures Four(KEY_192, 40, 0xA7E1466C, 0x9411F1DF, 0x821F750A, 0xAD07D753)
    ensures Four(KEY_192, 44, 0xCA400538, 0x8FCC5006, 0x282D166A, 0xBC3CE7B5)
    ensures Four(KEY_192, 48, 0xE98BA06F, 0x448C773C, 0x8ECC7204, 0x01002202)
  {
    First192();
    var key := KEY_192;
    hide KeyWord, SubByte;
    Row2(); Row5(); Row6(); Row7();
    Group6(key, 0, 0x8E73B0F7, 0xDA0E6452, 0xC810F32B, 0x809079E5, 0x62F8EAD2, 0x522C6B7B, 0x717F2100, 0x01000000);
    Row5(); RowC(); RowF();
    Group6(key, 1, 0xFE0C91F7, 0x2402F5A5, 0xEC12068E, 0x6C827F6B, 0x0E7A95B9, 0x5C56FEC2, 0xB1BB254A, 0x02000000);
    Row0(); Row5(); Row8(); RowB();
    Group6(key, 2, 0x4DB7B4BD, 0x69B54118, 0x85A74796, 0xE92538FD, 0xE75FAD44, 0xBB095386, 0x01ED44EA, 0x04000000);
    Row1(); Row3(); RowE();
    Group6(key, 3, 0x485AF057, 0x21EFB14F, 0xA448F6D9, 0x4D6DCE24, 0xAA326360, 0x113B30E6, 0xE2048E82, 0x08000000);
    Row9(); RowA(); RowD(); RowE();
    Group6(key, 4, 0xA25E7ED5, 0x83B1CF9A, 0x27F93943, 0x6A94F767, 0xC0A69407, 0xD19DA4E1, 0x5E49F83E, 0x10000000);
    Row3(); RowB(); RowF();
    Group6(key, 5, 0xEC1786EB, 0x6FA64971, 0x485F7032, 0x22CB8755, 0xE26D1352, 0x33F0B7B3, 0x8CA96DC3, 0x20000000);
    Row1(); Row9(); RowD(); RowF();
    Group6(key, 6, 0x40BEEB28, 0x2F18A259, 0x6747D26B, 0x458C553E, 0xA7E1466C, 0x9411F1DF, 0x82A19E22, 0x40000000);
    Row3(); RowB(); RowE();
    Group6(key, 7, 0x821F750A, 0xAD07D753, 0xCA400538, 0x8FCC5006, 0x282D166A, 0xBC3CE7B5, 0xEB94D565, 0x80000000);
  }

  const KEY_256: seq<Column> := [
    Word(0x603DEB10), Word(0x15CA71BE), Word(0x2B73AEF0), Word(0x857D7781),
    Word(0x1F352C07), Word(0x3B6108D7), Word(0x2D9810A3), Word(0x0914DFF4)]

  lemma First256()
    ensures |KEY_256| == 8
    ensures Four(KEY_256, 0, 0x603DEB10, 0x15CA71BE, 0x2B73AEF0, 0x857D7781)
    ensures Four(KEY_256, 4, 0x1F352C07, 0x3B6108D7, 0x2D9810A3, 0x0914DFF4)
  {
    hide Word;
  }

  /** Appendix A.3: all words of the expansion. */
  lemma Expansion256()
    ensures |KEY_256| == 8
    ensures Four(KEY_256, 0, 0x603DEB10, 0x15CA71BE, 0x2B73AEF0, 0x857D7781)
    ensures Four(KEY_256, 4, 0x1F352C07, 0x3B6108D7, 0x2D9810A3, 0x0914DFF4)
    ensures Four(KEY_256, 8, 0x9BA35411, 0x8E6925AF, 0xA51A8B5F, 0x2067FCDE)
    ensures Four(KEY_256, 12, 0xA8B09C1A, 0x93D194CD, 0xBE49846E, 0xB75D5B9A)
    ensures Four(KEY_256, 16, 0xD59AECB8, 0x5BF3C917, 0xFEE94248, 0xDE8EBE96)
    ensures Four(KEY_256, 20, 0xB5A9328A, 0x2678A647, 0x98312229, 0x2F6C79B3)
    ensures Four(KEY_256, 24, 0x812C81AD, 0xDADF48BA, 0x24360AF2, 0xFAB8B464)
    ensures Four(KEY_256, 28, 0x98C5BFC9, 0xBEBD198E, 0x268C3BA7, 0x09E04214)
    ensures Four(KEY_256, 32, 0x68007BAC, 0xB2DF3316, 0x96E939E4, 0x6C518D80)
    ensures Four(KEY_256, 36, 0xC814E204, 0x76A9FB8A, 0x5025C02D, 0x59C58239)
    ensures Four(KEY_256, 40, 0xDE136967, 0x6CCC5A71, 0xFA256395, 0x9674EE15)
    ensures Four(KEY_256, 44, 0x5886CA5D, 0x2E2F31D7, 0x7E0AF1FA, 0x27CF73C3)
    ensures Four(KEY_256, 48, 0x749C47AB, 0x18501DDA, 0xE2757E4F, 0x7401905A)
    ensures Four(KEY_256, 52, 0xCAFAAAE3, 0xE4D59B34, 0x9ADF6ACE, 0xBD10190D)
    ensures Four(KEY_256, 56, 0xFE4890D1, 0xE6188D0B, 0x046DF344, 0x706C631E)
  {
    First256();
    var key := KEY_256;
    hide KeyWord, SubByte;
    Row0(); Row1(); RowD(); RowF();
    Half8(key, 0, 0x603DEB10, 0x15CA71BE, 0x2B73AEF0, 0x857D7781, 0x0914DFF4, 0xFA9EBF01, 0x01000000);
    Row2(); Row6(); RowD(); RowF();
    Rest8(key, 0, 0x1F352C07, 0x3B6108D7, 0x2D9810A3, 0x0914DFF4, 0x2067FCDE, 0xB785B01D);
    Row5(); Row9(); RowB();
    Half8(key, 1, 0x9BA35411, 0x8E6925AF, 0xA51A8B5F, 0x2067FCDE, 0xB75D5B9A, 0x4C39B8A9, 0x02000000);
    Row8(); Row9(); RowB(); RowD();
    Rest8(key, 1, 0xA8B09C1A, 0x93D194CD, 0xBE49846E, 0xB75D5B9A, 0xDE8EBE96, 0x1D19AE90);
    Row2(); Row6(); Row7(); RowB();
    Half8(key, 2, 0xD59AECB8, 0x5BF3C917, 0xFEE94248, 0xDE8EBE96, 0x2F6C79B3, 0x50B66D15, 0x04000000);
    Row6(); RowB(); RowF();
    Rest8(key, 2, 0xB5A9328A, 0x2678A647, 0x98312229, 0x2F6C79B3, 0xFAB8B464, 0x2D6C8D43);
    Row0(); Row1(); Row4(); RowE();
    Half8(key, 3, 0x812C81AD, 0xDADF48BA, 0x24360AF2, 0xFAB8B464, 0x09E04214, 0xE12CFA01, 0x08000000);
    Row5(); Row6(); Row8();
    Rest8(key, 3, 0x98C5BFC9, 0xBEBD198E, 0x268C3BA7, 0x09E04214, 0x6C518D80, 0x50D15DCD);
    Row3(); Row5(); Row8(); RowC();
    Half8(key, 4, 0x68007BAC, 0xB2DF3316, 0x96E939E4, 0x6C518D80, 0x59C58239, 0xA61312CB, 0x10000000);
    Row1(); Row7(); Row9(); RowE();
    Rest8(key, 4, 0xC814E204, 0x76A9FB8A, 0x5025C02D, 0x59C58239, 0x9674EE15, 0x90922859);
    Row2(); Row7(); RowC();
    Half8(key, 5, 0xDE136967, 0x6CCC5A71, 0xFA256395, 0x9674EE15, 0x27CF73C3, 0x8A8F2ECC, 0x20000000);
    Row0(); Row5(); Row7(); Row9();
    Rest8(key, 5, 0x5886CA5D, 0x2E2F31D7, 0x7E0AF1FA, 0x27CF73C3, 0x7401905A, 0x927C60BE);
    Row0(); Row1(); RowB();
    Half8(key, 6, 0x749C47AB, 0x18501DDA, 0xE2757E4F, 0x7401905A, 0xBD10190D, 0xCAD4D77A, 0x40000000);
  }

  // --- appendix B of FIPS 197 ---

  const INPUT := StateOf(0x3243F6A8, 0x885A308D, 0x313198A2, 0xE0370734)

  function StateOf(a: bv32, b: bv32, c: bv32, d: bv32): State {
    State(Word(a), Word(b), Word(c), Word(d))
  }

  /** Byte r of column r of four columns. */
  function Shifted(a: bv32, b: bv32, c: bv32, d: bv32): bv32 {
    (a & 0xFF000000) | (b & 0x00FF0000) | (c & 0x0000FF00) | (d & 0x000000FF)
  }

  lemma ShiftedIs(a: bv32, b: bv32, c: bv32, d: bv32)
    ensures Word(Shifted(a, b, c, d)) == Column(Word(a).b0, Word(b).b1, Word(c).b2, Word(d).b3)
  {
  }

  /** Doubling of all four bytes of a word. */
  function Doubled(w: bv32): bv32 {
    var high := (w >> 7) & 0x01010101;
    ((w & 0x7F7F7F7F) << 1) ^ high ^ (high << 1) ^ (high << 3) ^ (high << 4)
  }

  lemma DoubledIs(w: bv32)
    ensures Word(Doubled(w)) == Column(Xtime(Word(w).b0), Xtime(Word(w).b1), Xtime(Word(w).b2), Xtime(Word(w).b3))
  {
  }

  function Mixed(w: bv32): bv32 {
    var next := Rotated(w);
    Xor(Xor(Doubled(w), Xor(Doubled(next), next)), Xor(Rotated(next), Rotated(Rotated(next))))
  }

  lemma MixedIs(w: bv32)
    ensures MixColumn(Word(w)) == Word(Mixed(w))
  {
    var x, y := Word(w), Rotated(w);
    var z := Rotated(y);
    WordRotate(w);
    WordRotate(y);
    WordRotate(z);
    DoubledIs(w);
    DoubledIs(y);
    WordAdd(Doubled(y), y);
    WordAdd(Doubled(w), Xor(Doubled(y), y));
    WordAdd(z, Rotated(z));
    WordAdd(Xor(Doubled(w), Xor(Doubled(y), y)), Xor(z, Rotated(z)));
    hide Word, Rotated, Xor, Doubled, Xtime, Mul, Add;
    Products(x.b0);
    Products(x.b1);
    Products(x.b2);
    Products(x.b3);
    RowSum(Xtime(x.b0), Xtime(x.b1), x.b1, x.b2, x.b3);
    RowSum(Xtime(x.b1), Xtime(x.b2), x.b2, x.b3, x.b0);
    RowSum(Xtime(x.b2), Xtime(x.b3), x.b3, x.b0, x.b1);
    RowSum(Xtime(x.b3), Xtime(x.b0), x.b0, x.b1, x.b2);
  }

  lemma Products(b: bv8)
    ensures Mul(0x01, b) == b && Mul(0x02, b) == Xtime(b) && Mul(0x03, b) == Add(Xtime(b), b)
  {
    ProductIsMul(0x01, b);
    ProductIsMul(0x02, b);
    ProductIsMul(0x03, b);
    hide Mul;
  }

  /** The orders in which the four rows of the matrix add the same five terms. */
  lemma RowSum(a: bv8, b: bv8, c: bv8, d: bv8, e: bv8)
    ensures var sum := Add(Add(a, Add(b, c)), Add(d, e));
      Add4(a, Add(b, c), d, e) == sum && Add4(e, a, Add(b, c), d) == sum
      && Add4(d, e, a, Add(b, c)) == sum && Add4(Add(b, c), d, e, a) == sum
  {
    hide Add;
    var m := Add(b, c);
    AddComm(d, e);
    AddComm(a, e);
    AddInterchange(a, m, e, d);
    AddComm(Add(a, m), Add(d, e));
    AddComm(Add(e, a), Add(m, d));
  }

  /** One round: the columns after SubBytes are p to s, and the round key is k to n. */
  lemma RoundIs(t: State, a: bv32, b: bv32, c: bv32, d: bv32, p: bv32, q: bv32, r: bv32, s: bv32,
                k: bv32, l: bv32, m: bv32, n: bv32)
    requires t == StateOf(a, b, c, d)
    requires Substituted(a, p) && Substituted(b, q) && Substituted(c, r) && Substituted(d, s)
    ensures AddRoundKey(MixColumns(ShiftRows(SubBytes(t))), StateOf(k, l, m, n)) ==
      StateOf(Xor(Mixed(Shifted(p, q, r, s)), k), Xor(Mixed(Shifted(q, r, s, p)), l),
              Xor(Mixed(Shifted(r, s, p, q)), m), Xor(Mixed(Shifted(s, p, q, r)), n))
  {
    ShiftedIs(p, q, r, s);
    ShiftedIs(q, r, s, p);
    ShiftedIs(r, s, p, q);
    ShiftedIs(s, p, q, r);
    hide Word, Shifted, Xor, Mixed, MixColumn, AddColumn, SubColumn;
    ColumnDone(Shifted(p, q, r, s), k);
    ColumnDone(Shifted(q, r, s, p), l);
    ColumnDone(Shifted(r, s, p, q), m);
    ColumnDone(Shifted(s, p, q, r), n);
  }

  lemma ColumnDone(w: bv32, k: bv32)
    ensures AddColumn(MixColumn(Word(w)), Word(k)) == Word(Xor(Mixed(w), k))
  {
    hide Word, Mixed, MixColumn, AddColumn, Xor;
    MixedIs(w);
    WordAdd(Mixed(w), k);
  }

  /** The last round, without MixColumns. */
  lemma LastRoundIs(t: State, a: bv32, b: bv32, c: bv32, d: bv32, p: bv32, q: bv32, r: bv32, s: bv32,
                    k: bv32, l: bv32, m: bv32, n: bv32)
    requires t == StateOf(a, b, c, d)
    requires Substituted(a, p) && Substituted(b, q) && Substituted(c, r) && Substituted(d, s)
    ensures AddRoundKey(ShiftRows(SubBytes(t)), StateOf(k, l, m, n)) ==
      StateOf(Xor(Shifted(p, q, r, s), k), Xor(Shifted(q, r, s, p), l),
              Xor(Shifted(r, s, p, q), m), Xor(Shifted(s, p, q, r), n))
  {
    ShiftedIs(p, q, r, s);
    ShiftedIs(q, r, s, p);
    ShiftedIs(r, s, p, q);
    ShiftedIs(s, p, q, r);
    hide Word, Shifted, Xor, AddColumn, SubColumn;
    WordAdd(Shifted(p, q, r, s), k);
    WordAdd(Shifted(q, r, s, p), l);
    WordAdd(Shifted(r, s, p, q), m);
    WordAdd(Shifted(s, p, q, r), n);
  }

  lemma CipherEnd(keys: seq<State>, s: State)
    requires |keys| == 11
    ensures Cipher(keys, s) == AddRoundKey(ShiftRows(SubBytes(Rounds(keys, 9, s))), keys[10])
  {
    hide Rounds, SubBytes, ShiftRows, AddRoundKey;
  }

  lemma FirstKey(a: bv32, b: bv32, c: bv32, d: bv32)
    ensures AddRoundKey(INPUT, StateOf(a, b, c, d)) ==
      StateOf(Xor(0x3243F6A8, a), Xor(0x885A308D, b), Xor(0x313198A2, c), Xor(0xE0370734, d))
  {
    WordAdd(0x3243F6A8, a);
    WordAdd(0x885A308D, b);
    WordAdd(0x313198A2, c);
    WordAdd(0xE0370734, d);
    hide Word, Xor, AddColumn;
  }

  lemma RoundKeyIs(r: nat, a: bv32, b: bv32, c: bv32, d: bv32)
    requires r <= 10 && |KEY_128| == 4 && Four(KEY_128, 4 * r, a, b, c, d)
    ensures KeyExpansion(KEY_128)[r] == StateOf(a, b, c, d)
  {
    hide KeyWord, Word;
  }

  lemma AfterRound0()
    ensures |KEY_128| == 4 && Rounds(KeyExpansion(KEY_128), 0, INPUT) ==
      StateOf(0x193DE3BE, 0xA0F4E22B, 0x9AC68D2A, 0xE9F84808)
  {
    assert |KEY_128| == 4 && KeyExpansion(KEY_128)[0] == StateOf(0x2B7E1516, 0x28AED2A6, 0xABF71588, 0x09CF4F3C) by {
      Expansion128();
      RoundKeyIs(0, 0x2B7E1516, 0x28AED2A6, 0xABF71588, 0x09CF4F3C);
    }
    FirstKey(0x2B7E1516, 0x28AED2A6, 0xABF71588, 0x09CF4F3C);
    hide Word, KeyExpansion, KeyWord;
  }

  lemma AfterRound1()
    ensures |KEY_128| == 4 && Rounds(KeyExpansion(KEY_128), 1, INPUT) ==
      StateOf(0xA49C7FF2, 0x689F352B, 0x6B5BEA43, 0x026A5049)
  {
    assert |KEY_128| == 4 && KeyExpansion(KEY_128)[1] == StateOf(0xA0FAFE17, 0x88542CB1, 0x23A33939, 0x2A6C7605) by {
      Expansion128();
      RoundKeyIs(1, 0xA0FAFE17, 0x88542CB1, 0x23A33939, 0x2A6C7605);
    }
    AfterRound0();
    hide SubByte, KeyExpansion, KeyWord;
    assert Substituted(0x193DE3BE, 0xD42711AE) by { Row1(); Row3(); RowB(); RowE(); }
    assert Substituted(0xA0F4E22B, 0xE0BF98F1) by { Row2(); RowA(); RowE(); RowF(); }
    assert Substituted(0x9AC68D2A, 0xB8B45DE5) by { Row2(); Row8(); Row9(); RowC(); }
    assert Substituted(0xE9F84808, 0x1E415230) by { Row0(); Row4(); RowE(); RowF(); }
    hide Substituted;
    RoundIs(Rounds(KeyExpansion(KEY_128), 0, INPUT), 0x193DE3BE, 0xA0F4E22B, 0x9AC68D2A, 0xE9F84808,
      0xD42711AE, 0xE0BF98F1, 0xB8B45DE5, 0x1E415230,
      0xA0FAFE17, 0x88542CB1, 0x23A33939, 0x2A6C7605);
  }

  lemma AfterRound2()
    ensures |KEY_128| == 4 && Rounds(KeyExpansion(KEY_128), 2, INPUT) ==
      StateOf(0xAA8F5F03, 0x61DDE3EF, 0x82D24AD2, 0x6832469A)
  {
    assert |KEY_128| == 4 && KeyExpansion(KEY_128)[2] == StateOf(0xF2C295F2, 0x7A96B943, 0x5935807A, 0x7359F67F) by {
      Expansion128();
      RoundKeyIs(2, 0xF2C295F2, 0x7A96B943, 0x5935807A, 0x7359F67F);
    }
    AfterRound1();
    hide SubByte, KeyExpansion, KeyWord;
    assert Substituted(0xA49C7FF2, 0x49DED289) by { Row7(); Row9(); RowA(); RowF(); }
    assert Substituted(0x689F352B, 0x45DB96F1) by { Row2(); Row3(); Row6(); Row9(); }
    assert Substituted(0x6B5BEA43, 0x7F39871A) by { Row4(); Row5(); Row6(); RowE(); }
    assert Substituted(0x026A5049, 0x7702533B) by { Row0(); Row4(); Row5(); Row6(); }
    hide Substituted;
    RoundIs(Rounds(KeyExpansion(KEY_128), 1, INPUT), 0xA49C7FF2, 0x689F352B, 0x6B5BEA43, 0x026A5049,
      0x49DED289, 0x45DB96F1, 0x7F39871A, 0x7702533B,
      0xF2C295F2, 0x7A96B943, 0x5935807A, 0x7359F67F);
  }

  lemma AfterRound3()
    ensures |KEY_128| == 4 && Rounds(KeyExpansion(KEY_128), 3, INPUT) ==
      StateOf(0x486C4EEE, 0x671D9D0D, 0x4DE3B138, 0xD65F58E7)
  {
    assert |KEY_128| == 4 && KeyExpansion(KEY_128)[3] == StateOf(0x3D80477D, 0x4716FE3E, 0x1E237E44, 0x6D7A883B) by {
      Expansion128();
      RoundKeyIs(3, 0x3D80477D, 0x4716FE3E, 0x1E237E44, 0x6D7A883B);
    }
    AfterRound2();
    hide SubByte, KeyExpansion, KeyWord;
    assert Substituted(0xAA8F5F03, 0xAC73CF7B) by { Row0(); Row5(); Row8(); RowA(); }
    assert Substituted(0x61DDE3EF, 0xEFC111DF) by { Row6(); RowD(); RowE(); }
    assert Substituted(0x82D24AD2, 0x13B5D6B5) by { Row4(); Row8(); RowD(); }
    assert Substituted(0x6832469A, 0x45235AB8) by { Row3(); Row4(); Row6(); Row9(); }
    hide Substituted;
    RoundIs(Rounds(KeyExpansion(KEY_128), 2, INPUT), 0xAA8F5F03, 0x61DDE3EF, 0x82D24AD2, 0x6832469A,
      0xAC73CF7B, 0xEFC111DF, 0x13B5D6B5, 0x45235AB8,
      0x3D80477D, 0x4716FE3E, 0x1E237E44, 0x6D7A883B);
  }

  lemma AfterRound4()
    ensures |KEY_128| == 4 && Rounds(KeyExpansion(KEY_128), 4, INPUT) ==
      StateOf(0xE0927FE8, 0xC86363C0, 0xD9B13550, 0x85B8BE01)
  {
    assert |KEY_128| == 4 && KeyExpansion(KEY_128)[4] == StateOf(0xEF44A541, 0xA8525B7F, 0xB671253B, 0xDB0BAD00) by {
      Expansion128();
      RoundKeyIs(4, 0xEF44A541, 0xA8525B7F, 0xB671253B, 0xDB0BAD00);
    }
    AfterRound3();
    hide SubByte, KeyExpansion, KeyWord;
    assert Substituted(0x486C4EEE, 0x52502F28) by { Row4(); Row6(); RowE(); }
    assert Substituted(0x671D9D0D, 0x85A45ED7) by { Row0(); Row1(); Row6(); Row9(); }
    assert Substituted(0x4DE3B138, 0xE311C807) by { Row3(); Row4(); RowB(); RowE(); }
    assert Substituted(0xD65F58E7, 0xF6CF6A94) by { Row5(); RowD(); RowE(); }
    hide Substituted;
    RoundIs(Rounds(KeyExpansion(KEY_128), 3, INPUT), 0x486C4EEE, 0x671D9D0D, 0x4DE3B138, 0xD65F58E7,
      0x52502F28, 0x85A45ED7, 0xE311C807, 0xF6CF6A94,
      0xEF44A541, 0xA8525B7F, 0xB671253B, 0xDB0BAD00);
  }

  lemma AfterRound5()
    ensures |KEY_128| == 4 && Rounds(KeyExpansion(KEY_128), 5, INPUT) ==
      StateOf(0xF1006F55, 0xC1924CEF, 0x7CC88B32, 0x5DB5D50C)
  {
    assert |KEY_128| == 4 && KeyExpansion(KEY_128)[5] == StateOf(0xD4D1C6F8, 0x7C839D87, 0xCAF2B8BC, 0x11F915BC) by {
      Expansion128();
      RoundKeyIs(5, 0xD4D1C6F8, 0x7C839D87, 0xCAF2B8BC, 0x11F915BC);
    }
    AfterRound4();
    hide SubByte, KeyExpansion, KeyWord;
    assert Substituted(0xE0927FE8, 0xE14FD29B) by { Row7(); Row9(); RowE(); }
    assert Substituted(0xC86363C0, 0xE8FBFBBA) by { Row6(); RowC(); }
    assert Substituted(0xD9B13550, 0x35C89653) by { Row3(); Row5(); RowB(); RowD(); }
    assert Substituted(0x85B8BE01, 0x976CAE7C) by { Row0(); Row8(); RowB(); }
    hide Substituted;
    RoundIs(Rounds(KeyExpansion(KEY_128), 4, INPUT), 0xE0927FE8, 0xC86363C0, 0xD9B13550, 0x85B8BE01,
      0xE14FD29B, 0xE8FBFBBA, 0x35C89653, 0x976CAE7C,
      0xD4D1C6F8, 0x7C839D87, 0xCAF2B8BC, 0x11F915BC);
  }

  lemma AfterRound6()
    ensures |KEY_128| == 4 && Rounds(KeyExpansion(KEY_128), 6, INPUT) ==
      StateOf(0x260E2E17, 0x3D41B77D, 0xE86472A9, 0xFDD28B25)
  {
    assert |KEY_128| == 4 && KeyExpansion(KEY_128)[6] == StateOf(0x6D88A37A, 0x110B3EFD, 0xDBF98641, 0xCA0093FD) by {
      Expansion128();
      RoundKeyIs(6, 0x6D88A37A, 0x110B3EFD, 0xDBF98641, 0xCA0093FD);
    }
    AfterRound5();
    hide SubByte, KeyExpansion, KeyWord;
    assert Substituted(0xF1006F55, 0xA163A8FC) by { Row0(); Row5(); Row6(); RowF(); }
    assert Substituted(0xC1924CEF, 0x784F29DF) by { Row4(); Row9(); RowC(); RowE(); }
    assert Substituted(0x7CC88B32, 0x10E83D23) by { Row3(); Row7(); Row8(); RowC(); }
    assert Substituted(0x5DB5D50C, 0x4CD503FE) by { Row0(); Row5(); RowB(); RowD(); }
    hide Substituted;
    RoundIs(Rounds(KeyExpansion(KEY_128), 5, INPUT), 0xF1006F55, 0xC1924CEF, 0x7CC88B32, 0x5DB5D50C,
      0xA163A8FC, 0x784F29DF, 0x10E83D23, 0x4CD503FE,
      0x6D88A37A, 0x110B3EFD, 0xDBF98641, 0xCA0093FD);
  }

  lemma AfterRound7()
    ensures |KEY_128| == 4 && Rounds(KeyExpansion(KEY_128), 7, INPUT) ==
      StateOf(0x5A4142B1, 0x1949DC1F, 0xA3E01965, 0x7A8C040C)
  {
    assert |KEY_128| == 4 && KeyExpansion(KEY_128)[7] == StateOf(0x4E54F70E, 0x5F5FC9F3, 0x84A64FB2, 0x4EA6DC4F) by {
      Expansion128();
      RoundKeyIs(7, 0x4E54F70E, 0x5F5FC9F3, 0x84A64FB2, 0x4EA6DC4F);
    }
    AfterRound6();
    hide SubByte, KeyExpansion, KeyWord;
    assert Substituted(0x260E2E17, 0xF7AB31F0) by { Row0(); Row1(); Row2(); }
    assert Substituted(0x3D41B77D, 0x2783A9FF) by { Row3(); Row4(); Row7(); RowB(); }
    assert Substituted(0xE86472A9, 0x9B4340D3) by { Row6(); Row7(); RowA(); RowE(); }
    assert Substituted(0xFDD28B25, 0x54B53D3F) by { Row2(); Row8(); RowD(); RowF(); }
    hide Substituted;
    RoundIs(Rounds(KeyExpansion(KEY_128), 6, INPUT), 0x260E2E17, 0x3D41B77D, 0xE86472A9, 0xFDD28B25,
      0xF7AB31F0, 0x2783A9FF, 0x9B4340D3, 0x54B53D3F,
      0x4E54F70E, 0x5F5FC9F3, 0x84A64FB2, 0x4EA6DC4F);
  }

  lemma AfterRound8()
    ensures |KEY_128| == 4 && Rounds(KeyExpansion(KEY_128), 8, INPUT) ==
      StateOf(0xEA835CF0, 0x0445332D, 0x655D98AD, 0x8596B0C5)
  {
    assert |KEY_128| == 4 && KeyExpansion(KEY_128)[8] == StateOf(0xEAD27321, 0xB58DBAD2, 0x312BF560, 0x7F8D292F) by {
      Expansion128();
      RoundKeyIs(8, 0xEAD27321, 0xB58DBAD2, 0x312BF560, 0x7F8D292F);
    }
    AfterRound7();
    hide SubByte, KeyExpansion, KeyWord;
    assert Substituted(0x5A4142B1, 0xBE832CC8) by { Row4(); Row5(); RowB(); }
    assert Substituted(0x1949DC1F, 0xD43B86C0) by { Row1(); Row4(); RowD(); }
    assert Substituted(0xA3E01965, 0x0AE1D44D) by { Row1(); Row6(); RowA(); RowE(); }
    assert Substituted(0x7A8C040C, 0xDA64F2FE) by { Row0(); Row7(); Row8(); }
    hide Substituted;
    RoundIs(Rounds(KeyExpansion(KEY_128), 7, INPUT), 0x5A4142B1, 0x1949DC1F, 0xA3E01965, 0x7A8C040C,
      0xBE832CC8, 0xD43B86C0, 0x0AE1D44D, 0xDA64F2FE,
      0xEAD27321, 0xB58DBAD2, 0x312BF560, 0x7F8D292F);
  }

  lemma AfterRound9()
    ensures |KEY_128| == 4 && Rounds(KeyExpansion(KEY_128), 9, INPUT) ==
      StateOf(0xEB40F21E, 0x592E3884, 0x8BA113E7, 0x1BC342D2)
  {
    assert |KEY_128| == 4 && KeyExpansion(KEY_128)[9] == StateOf(0xAC7766F3, 0x19FADC21, 0x28D12941, 0x575C006E) by {
      Expansion128();
      RoundKeyIs(9, 0xAC7766F3, 0x19FADC21, 0x28D12941, 0x575C006E);
    }
    AfterRound8();
    hide SubByte, KeyExpansion, KeyWord;
    assert Substituted(0xEA835CF0, 0x87EC4A8C) by { Row5(); Row8(); RowE(); RowF(); }
    assert Substituted(0x0445332D, 0xF26EC3D8) by { Row0(); Row2(); Row3(); Row4(); }
    assert Substituted(0x655D98AD, 0x4D4C4695) by { Row5(); Row6(); Row9(); RowA(); }
    assert Substituted(0x8596B0C5, 0x9790E7A6) by { Row8(); Row9(); RowB(); RowC(); }
    hide Substituted;
    RoundIs(Rounds(KeyExpansion(KEY_128), 8, INPUT), 0xEA835CF0, 0x0445332D, 0x655D98AD, 0x8596B0C5,
      0x87EC4A8C, 0xF26EC3D8, 0x4D4C4695, 0x9790E7A6,
      0xAC7766F3, 0x19FADC21, 0x28D12941, 0x575C006E);
  }

  lemma LastKey()
    ensures |KEY_128| == 4 && KeyExpansion(KEY_128)[10] == StateOf(0xD014F9A8, 0xC9EE2589, 0xE13F0CC8, 0xB6630CA6)
  {
    Expansion128();
    RoundKeyIs(10, 0xD014F9A8, 0xC9EE2589, 0xE13F0CC8, 0xB6630CA6);
  }

  lemma LastWords(t: State, k: State)
    requires t == StateOf(0xEB40F21E, 0x592E3884, 0x8BA113E7, 0x1BC342D2)
    requires k == StateOf(0xD014F9A8, 0xC9EE2589, 0xE13F0CC8, 0xB6630CA6)
    ensures AddRoundKey(ShiftRows(SubBytes(t)), k) == StateOf(0x3925841D, 0x02DC09FB, 0xDC118597, 0x196A0B32)
  {
    hide SubByte;
    assert Substituted(0xEB40F21E, 0xE9098972) by { Row1(); Row4(); RowE(); RowF(); }
    assert Substituted(0x592E3884, 0xCB31075F) by { Row2(); Row3(); Row5(); Row8(); }
    assert Substituted(0x8BA113E7, 0x3D327D94) by { Row1(); Row8(); RowA(); RowE(); }
    assert Substituted(0x1BC342D2, 0xAF2E2CB5) by { Row1(); Row4(); RowC(); RowD(); }
    hide Substituted, Word, SubBytes, ShiftRows, AddRoundKey;
    LastRoundIs(t, 0xEB40F21E, 0x592E3884, 0x8BA113E7, 0x1BC342D2,
      0xE9098972, 0xCB31075F, 0x3D327D94, 0xAF2E2CB5,
      0xD014F9A8, 0xC9EE2589, 0xE13F0CC8, 0xB6630CA6);
  }

  /** Appendix B: the block 3243F6A8885A308D313198A2E0370734 under the key 2B7E151628AED2A6ABF7158809CF4F3C. */
  lemma CipherExample()
    ensures |KEY_128| == 4
    ensures Cipher(KeyExpansion(KEY_128), INPUT) == StateOf(0x3925841D, 0x02DC09FB, 0xDC118597, 0x196A0B32)
  {
    hide Cipher, KeyExpansion, Rounds, SubBytes, ShiftRows, AddRoundKey, StateOf;
    LastKey();
    AfterRound9();
    CipherEnd(KeyExpansion(KEY_128), INPUT);
    LastWords(Rounds(KeyExpansion(KEY_128), 9, INPUT), KeyExpansion(KEY_128)[10]);
  }

  /** The same example over bytes, as the entry points read and write them. */
  lemma BlockExample(key: seq<bv8>, block: seq<bv8>)
    requires key == [
      0x2B, 0x7E, 0x15, 0x16, 0x28, 0xAE, 0xD2, 0xA6, 0xAB, 0xF7, 0x15, 0x88, 0x09, 0xCF, 0x4F, 0x3C]
    requires block == [
      0x32, 0x43, 0xF6, 0xA8, 0x88, 0x5A, 0x30, 0x8D, 0x31, 0x31, 0x98, 0xA2, 0xE0, 0x37, 0x07, 0x34]
    ensures AesBlock.EncryptBlock(key, block) == [
      0x39, 0x25, 0x84, 0x1D, 0x02, 0xDC, 0x09, 0xFB, 0xDC, 0x11, 0x85, 0x97, 0x19, 0x6A, 0x0B, 0x32]
  {
    hide *;
    CipherExample();
    KeyBytes(key);
    InputBytes(block);
    OutputBytes();
    AesBlock.EncryptBlockIs(key, block);
  }

  lemma KeyBytes(key: seq<bv8>)
    requires key == [
      0x2B, 0x7E, 0x15, 0x16, 0x28, 0xAE, 0xD2, 0xA6, 0xAB, 0xF7, 0x15, 0x88, 0x09, 0xCF, 0x4F, 0x3C]
    ensures KeyColumns(key) == KEY_128
  {
    assert KeyColumns(key)[0] == Word(0x2B7E1516) && KeyColumns(key)[1] == Word(0x28AED2A6);
    assert KeyColumns(key)[2] == Word(0xABF71588) && KeyColumns(key)[3] == Word(0x09CF4F3C);
    hide Word;
  }

  lemma InputBytes(block: seq<bv8>)
    requires block == [
      0x32, 0x43, 0xF6, 0xA8, 0x88, 0x5A, 0x30, 0x8D, 0x31, 0x31, 0x98, 0xA2, 0xE0, 0x37, 0x07, 0x34]
    ensures StateOfBytes(block) == INPUT
  {
  }

  lemma OutputBytes()
    ensures BytesOfState(StateOf(0x3925841D, 0x02DC09FB, 0xDC118597, 0x196A0B32)) == [
      0x39, 0x25, 0x84, 0x1D, 0x02, 0xDC, 0x09, 0xFB, 0xDC, 0x11, 0x85, 0x97, 0x19, 0x6A, 0x0B, 0x32]
  {
  }
}
