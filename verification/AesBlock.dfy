/** The entry points of mid/aes_e/aes_e.c: key schedules for encryption and decryption, and the
    table-driven encryption and decryption of one block, proved against Rijndael. */
module AesBlock {
  import opened GaloisField
  import opened Rijndael
  import opened Words
  import opened AesTables
  import opened Aes
  import opened AesCipher

  const INVALID_KEY_LENGTH := -0x0020

  predicate SupportedKey(keybits: int) {
    keybits == 128 || keybits == 192 || keybits == 256
  }

  // --- words of the key schedule ---

  ghost predicate Scheduled(buf: seq<bv32>, key: seq<Column>, n: nat)
    requires KeyLength(|key|)
  {
    n <= |buf| && forall j :: 0 <= j < n ==> buf[j] == Pack(KeyWord(key, j))
  }

  lemma PlainWord(key: seq<Column>, j: nat)
    requires KeyLength(|key|) && j >= |key|
    requires j % |key| != 0 && !(|key| > 6 && j % |key| == 4)
    ensures Xor(Pack(KeyWord(key, j - |key|)), Pack(KeyWord(key, j - 1))) == Pack(KeyWord(key, j))
  {
    hide Pack, Xor, AddColumn, SubColumn, Rcon;
    PackAdd(KeyWord(key, j - |key|), KeyWord(key, j - 1));
  }

  /** The substituted and rotated word that starts a group of the schedule. */
  lemma GroupWord(key: seq<Column>, j: nat, rcon: bv32, s: bv32)
    requires KeyLength(|key|) && j >= |key| && j % |key| == 0
    requires rcon == Pack(Rcon(j / |key|))
    requires s == Pack(SubColumn(RotWord(KeyWord(key, j - 1))))
    ensures Xor(Xor(Pack(KeyWord(key, j - |key|)), rcon), s) == Pack(KeyWord(key, j))
  {
    hide Pack, Xor, AddColumn, SubColumn, Rcon, RotWord;
    var w := KeyWord(key, j - |key|);
    var sub := SubColumn(RotWord(KeyWord(key, j - 1)));
    var r := Rcon(j / |key|);
    PackAdd(w, r);
    PackAdd(AddColumn(w, r), sub);
    AddColumnAssoc(w, r, sub);
  }

  lemma AddColumnAssoc(a: Column, b: Column, c: Column)
    ensures AddColumn(AddColumn(a, b), c) == AddColumn(a, AddColumn(c, b))
  {
    hide Add;
    AddAssoc(a.b0, b.b0, c.b0);
    AddAssoc(a.b1, b.b1, c.b1);
    AddAssoc(a.b2, b.b2, c.b2);
    AddAssoc(a.b3, b.b3, c.b3);
    AddComm(b.b0, c.b0);
    AddComm(b.b1, c.b1);
    AddComm(b.b2, c.b2);
    AddComm(b.b3, c.b3);
  }

  /** The extra substitution of 256-bit keys. */
  lemma MiddleWord(key: seq<Column>, j: nat, s: bv32)
    requires |key| == 8 && j >= 8 && j % 8 == 4
    requires s == Pack(SubColumn(KeyWord(key, j - 1)))
    ensures Xor(Pack(KeyWord(key, j - 8)), s) == Pack(KeyWord(key, j))
  {
    hide Pack, Xor, AddColumn, SubColumn, Rcon;
    PackAdd(KeyWord(key, j - 8), SubColumn(KeyWord(key, j - 1)));
  }

  lemma ScheduledPrefix(buf: seq<bv32>, key: seq<Column>, n: nat)
    requires KeyLength(|key|) && exists m :: n <= m && Scheduled(buf, key, m)
    ensures Scheduled(buf, key, n)
  {
    hide Pack, KeyWord;
  }

  lemma ScheduledKeys(buf: seq<bv32>, key: seq<Column>, nr: nat)
    requires KeyLength(|key|) && nr == |key| + 6 && Scheduled(buf, key, 4 * nr + 4)
    ensures RoundKeys(buf, nr) == KeyExpansion(key)
  {
    hide Pack, Unpack, KeyWord;
    forall r: nat | r <= nr ensures RoundKeyAt(buf, r) == RoundKey(key, r) {
      UnpackPack(KeyWord(key, 4 * r));
      UnpackPack(KeyWord(key, 4 * r + 1));
      UnpackPack(KeyWord(key, 4 * r + 2));
      UnpackPack(KeyWord(key, 4 * r + 3));
    }
  }

  predicate SupportedLength(n: int) {
    n == 16 || n == 24 || n == 32
  }

  /** The round keys of a key of 16, 24 or 32 bytes. */
  ghost function ExpandedKey(key: seq<bv8>): seq<State>
    requires SupportedLength(|key|)
  {
    KeyExpansion(KeyColumns(key))
  }

  /** RotWord and SubWord of a word, as the key schedules write it out. */
  function RotSubWord(t: Tables, w: bv32): bv32
    requires t.Shaped()
    reads t.fsb
  {
    XorWord(t.fsb[Byte1(w) as int], t.fsb[Byte2(w) as int], t.fsb[Byte3(w) as int], t.fsb[Byte0(w) as int])
  }

  function SubWord(t: Tables, w: bv32): bv32
    requires t.Shaped()
    reads t.fsb
  {
    XorWord(t.fsb[Byte0(w) as int], t.fsb[Byte1(w) as int], t.fsb[Byte2(w) as int], t.fsb[Byte3(w) as int])
  }

  lemma SBoxAt(fsb: seq<bv8>, b: bv8)
    requires SBoxTable(fsb)
    ensures fsb[b as int] == SubByte(b)
  {
    hide SubByte;
  }

  lemma InvSBoxAt(rsb: seq<bv8>, b: bv8)
    requires InvSBoxTable(rsb)
    ensures rsb[b as int] == InvSubByte(b)
  {
    hide InvSubByte;
  }

  lemma SubLookup(t: Tables, b: bv8)
    requires t.Shaped() && t.Generated()
    ensures t.fsb[b as int] == SubByte(b)
  {
    hide SubByte, SBoxTable;
    SBoxAt(t.fsb[..], b);
  }

  lemma InvSubLookup(t: Tables, b: bv8)
    requires t.Shaped() && t.Generated()
    ensures t.rsb[b as int] == InvSubByte(b)
  {
    hide InvSubByte, InvSBoxTable;
    InvSBoxAt(t.rsb[..], b);
  }

  lemma SubstitutedWords(t: Tables, c: Column, w: bv32)
    requires t.Shaped() && t.Generated() && w == Pack(c)
    ensures RotSubWord(t, w) == Pack(SubColumn(RotWord(c)))
    ensures SubWord(t, w) == Pack(SubColumn(c))
  {
    hide Pack, XorWord, SubByte, Byte0, Byte1, Byte2, Byte3, Tables.Generated;
    UnpackPack(c);
    SubLookup(t, c.b0);
    SubLookup(t, c.b1);
    SubLookup(t, c.b2);
    SubLookup(t, c.b3);
    var s := SubColumn(c);
    PackXor(s.b0, s.b1, s.b2, s.b3);
    PackXor(s.b1, s.b2, s.b3, s.b0);
  }

  /** The tables are generated before their first use. */
  method Prepare(t: Tables)
    requires t.Valid()
    modifies t, t.Repr
    ensures t.Valid() && t.initDone
  {
    hide Tables.Generated, Tables.Shaped;
    if !t.initDone {
      t.GenTables();
      t.initDone := true;
    }
  }

  /** `mbedtls_aes_context`. The pointer to the round keys always is the buffer itself. */
  class Context {
    var nr: int
    const buf: array<bv32>

    /** `mbedtls_aes_init`. */
    constructor ()
      ensures fresh(buf) && Shaped() && nr == 0
    {
      nr := 0;
      buf := new bv32[68](_ => 0);
    }

    ghost predicate Shaped() {
      buf.Length == 68
    }

    ghost predicate Keyed()
      reads this, buf
    {
      Shaped() && (nr == 10 || nr == 12 || nr == 14)
    }

    ghost function Keys(): (keys: seq<State>)
      requires Keyed()
      reads this, buf
      ensures |keys| == nr + 1
    {
      RoundKeys(buf[..], nr)
    }

    /** `mbedtls_aes_setkey_enc`. */
    method SetKeyEnc(t: Tables, key: array<bv8>, keybits: int) returns (ret: int)
      requires Shaped() && t.Valid() && buf !in t.Repr && key as object !in t.Repr && key as object != buf
      requires SupportedKey(keybits) ==> key.Length == keybits / 8
      modifies this, buf, t, t.Repr
      ensures ret == if SupportedKey(keybits) then 0 else -0x0020
      ensures ret != 0 ==> nr == old(nr) && buf[..] == old(buf[..])
      ensures ret == 0 ==> Keyed() && nr == keybits / 32 + 6
      ensures ret == 0 ==> Keys() == ExpandedKey(key[..])
      ensures t.Valid() && t.initDone
    {
      hide RoundKeys, ExpandedKey, Tables.Generated, Tables.Shaped;
      Prepare(t);
      match keybits {
        case 128 => nr := 10;
        case 192 => nr := 12;
        case 256 => nr := 14;
        case _ => return INVALID_KEY_LENGTH;
      }
      ExpandKey(t, key);
      ret := 0;
    }

    /** The part of `mbedtls_aes_setkey_enc` behind the choice of the number of rounds. */
    method ExpandKey(t: Tables, key: array<bv8>)
      requires Keyed() && key.Length == 4 * (nr - 6) && key as object != buf as object
      requires t.Shaped() && t.Generated() && buf !in t.Repr
      modifies buf
      ensures Keys() == ExpandedKey(key[..])
    {
      hide Scheduled, KeyColumns, RoundKeys, KeyExpansion, Tables.Generated, Tables.Shaped;
      LoadKey(key);
      ghost var cols := KeyColumns(key[..]);
      match nr {
        case 10 => Expand128(t, cols);
        case 12 => Expand192(t, cols);
        case _ => Expand256(t, cols);
      }
      ScheduledPrefix(buf[..], cols, 4 * nr + 4);
      ScheduledKeys(buf[..], cols, nr);
    }

    /** The loop over `GET_UINT32_LE`. */
    method LoadKey(key: array<bv8>)
      requires Shaped() && key as object != buf as object
      requires key.Length == 16 || key.Length == 24 || key.Length == 32
      modifies buf
      ensures Scheduled(buf[..], KeyColumns(key[..]), key.Length / 4)
    {
      hide Pack;
      ghost var cols := KeyColumns(key[..]);
      for i := 0 to key.Length / 4
        invariant Scheduled(buf[..], cols, i)
      {
        buf[i] := Pack(Column(key[4 * i], key[4 * i + 1], key[4 * i + 2], key[4 * i + 3]));
        assert cols[i] == ColumnAt(key[..], 4 * i);
      }
    }

    /** The first word of group i + 1. */
    method GroupStep(t: Tables, i: nat, nk: nat, ghost key: seq<Column>)
      requires Shaped() && t.Shaped() && t.Generated() && buf !in t.Repr
      requires |key| == nk && KeyLength(nk) && i < 10 && nk * i + nk < 68
      requires Scheduled(buf[..], key, nk * i + nk)
      modifies buf
      ensures Scheduled(buf[..], key, nk * i + nk + 1)
    {
      hide Pack, Xor, KeyWord, RotSubWord, SubColumn, RotWord, Rcon, SBoxTable, InvSBoxTable, ForwardTable, ReverseTable;
      var rk := nk * i;
      var j := rk + nk;
      SubstitutedWords(t, KeyWord(key, j - 1), buf[j - 1]);
      GroupPosition(nk, i);
      assert t.rcon[i] == t.rcon[..][i];
      GroupWord(key, j, t.rcon[i], RotSubWord(t, buf[j - 1]));
      buf[j] := Xor(Xor(buf[rk], t.rcon[i]), RotSubWord(t, buf[j - 1]));
    }

    /** The lines `RK[j] = RK[j - nk] ^ RK[j - 1]`. */
    method NextWord(j: nat, nk: nat, ghost key: seq<Column>)
      requires Shaped() && |key| == nk && KeyLength(nk) && nk <= j < 68 && Scheduled(buf[..], key, j)
      requires j % nk != 0 && !(nk > 6 && j % nk == 4)
      modifies buf
      ensures Scheduled(buf[..], key, j + 1)
    {
      hide Pack, Xor, KeyWord;
      PlainWord(key, j);
      buf[j] := Xor(buf[j - nk], buf[j - 1]);
    }

    method Expand128(t: Tables, ghost key: seq<Column>)
      requires Shaped() && t.Shaped() && t.Generated() && buf !in t.Repr
      requires |key| == 4 && Scheduled(buf[..], key, 4)
      modifies buf
      ensures Scheduled(buf[..], key, 44)
    {
      hide Scheduled, Tables.Generated, Tables.Shaped;
      for i := 0 to 10
        invariant Scheduled(buf[..], key, 4 * i + 4)
      {
        var rk := 4 * i;
        GroupStep(t, i, 4, key);
        NextWord(rk + 5, 4, key);
        NextWord(rk + 6, 4, key);
        NextWord(rk + 7, 4, key);
      }
    }

    method Expand192(t: Tables, ghost key: seq<Column>)
      requires Shaped() && t.Shaped() && t.Generated() && buf !in t.Repr
      requires |key| == 6 && Scheduled(buf[..], key, 6)
      modifies buf
      ensures Scheduled(buf[..], key, 54)
    {
      hide Scheduled, Tables.Generated, Tables.Shaped;
      for i := 0 to 8
        invariant Scheduled(buf[..], key, 6 * i + 6)
      {
        var rk := 6 * i;
        GroupStep(t, i, 6, key);
        NextWord(rk + 7, 6, key);
        NextWord(rk + 8, 6, key);
        NextWord(rk + 9, 6, key);
        NextWord(rk + 10, 6, key);
        NextWord(rk + 11, 6, key);
      }
    }

    method MiddleStep(t: Tables, j: nat, ghost key: seq<Column>)
      requires Shaped() && t.Shaped() && t.Generated() && buf !in t.Repr
      requires |key| == 8 && 8 <= j < 68 && j % 8 == 4 && Scheduled(buf[..], key, j)
      modifies buf
      ensures Scheduled(buf[..], key, j + 1)
    {
      hide Pack, Xor, KeyWord, SubWord, SubColumn, Tables.Generated;
      SubstitutedWords(t, KeyWord(key, j - 1), buf[j - 1]);
      MiddleWord(key, j, SubWord(t, buf[j - 1]));
      buf[j] := Xor(buf[j - 8], SubWord(t, buf[j - 1]));
    }

    method Expand256(t: Tables, ghost key: seq<Column>)
      requires Shaped() && t.Shaped() && t.Generated() && buf !in t.Repr
      requires |key| == 8 && Scheduled(buf[..], key, 8)
      modifies buf
      ensures Scheduled(buf[..], key, 64)
    {
      hide Scheduled, Tables.Generated, Tables.Shaped;
      for i := 0 to 7
        invariant Scheduled(buf[..], key, 8 * i + 8)
      {
        var rk := 8 * i;
        GroupStep(t, i, 8, key);
        NextWord(rk + 9, 8, key);
        NextWord(rk + 10, 8, key);
        NextWord(rk + 11, 8, key);
        MiddleStep(t, rk + 12, key);
        NextWord(rk + 13, 8, key);
        NextWord(rk + 14, 8, key);
        NextWord(rk + 15, 8, key);
      }
    }

    /** `mbedtls_aes_setkey_dec`. */
    method SetKeyDec(t: Tables, key: array<bv8>, keybits: int) returns (ret: int)
      requires Shaped() && t.Valid() && buf !in t.Repr && key as object !in t.Repr && key as object != buf
      requires SupportedKey(keybits) ==> key.Length == keybits / 8
      modifies this, buf, t, t.Repr
      ensures ret == if SupportedKey(keybits) then 0 else -0x0020
      ensures ret != 0 ==> nr == old(nr) && buf[..] == old(buf[..])
      ensures ret == 0 ==> Keyed() && nr == keybits / 32 + 6
      ensures ret == 0 ==> Keys() == DecryptionKeys(ExpandedKey(key[..]))
      ensures t.Valid() && t.initDone
    {
      hide Reversed, RoundKeys, ExpandedKey, DecryptionKeys, Tables.Generated, Tables.Shaped;
      var cty := new Context();
      ret := cty.SetKeyEnc(t, key, keybits);
      if ret != 0 { return; }
      nr := cty.nr;
      CopyReversed(t, cty);
      ReversedKeys(buf[..], cty.buf[..], nr);
    }

    /** The copying part of `mbedtls_aes_setkey_dec`, with RK and SK as indices. */
    method CopyReversed(t: Tables, cty: Context)
      requires Keyed() && cty.Keyed() && cty.nr == nr && cty != this && buf != cty.buf
      requires t.Shaped() && t.Generated() && buf !in t.Repr && cty.buf !in t.Repr
      modifies buf
      ensures Reversed(buf[..], cty.buf[..], nr, 4 * nr + 4)
    {
      hide Reversed, Tables.Generated, Tables.Shaped;
      ReversedNothing(buf[..], cty.buf[..], nr);
      CopyKey(cty, 0);
      var i := nr - 1;
      while i > 0
        invariant 0 <= i < nr && Reversed(buf[..], cty.buf[..], nr, 4 * (nr - i))
      {
        MixKey(t, cty, nr - i);
        i := i - 1;
      }
      CopyKey(cty, nr);
    }

    /** The first or the last round key is copied. */
    method CopyKey(cty: Context, r: nat)
      requires Keyed() && cty.Keyed() && cty.nr == nr && buf != cty.buf
      requires (r == 0 || r == nr) && Reversed(buf[..], cty.buf[..], nr, 4 * r)
      modifies buf
      ensures Reversed(buf[..], cty.buf[..], nr, 4 * r + 4)
    {
      hide Reversed;
      var rk, sk := 4 * r, 4 * (nr - r);
      for j := 0 to 4
        invariant rk == 4 * r + j && sk == 4 * (nr - r) + j && Reversed(buf[..], cty.buf[..], nr, rk)
      {
        ReversedCopy(buf[..], cty.buf[..], nr, rk);
        ghost var next := buf[..][rk := cty.buf[sk]];
        buf[rk] := cty.buf[sk];
        assert buf[..] == next;
        rk, sk := rk + 1, sk + 1;
      }
    }

    /** A round key between them is transformed. */
    method MixKey(t: Tables, cty: Context, r: nat)
      requires Keyed() && cty.Keyed() && cty.nr == nr && buf != cty.buf
      requires t.Shaped() && t.Generated() && buf !in t.Repr
      requires 0 < r < nr && Reversed(buf[..], cty.buf[..], nr, 4 * r)
      modifies buf
      ensures Reversed(buf[..], cty.buf[..], nr, 4 * r + 4)
    {
      hide Unpack, InvMixColumn, InvMixWord, Reversed, Tables.Generated;
      var rk, sk := 4 * r, 4 * (nr - r);
      for j := 0 to 4
        invariant rk == 4 * r + j && sk == 4 * (nr - r) + j && Reversed(buf[..], cty.buf[..], nr, rk)
      {
        InvMixWordMixes(t, cty.buf[sk]);
        ReversedMix(buf[..], cty.buf[..], nr, rk, InvMixWord(t, cty.buf[sk]));
        ghost var next := buf[..][rk := InvMixWord(t, cty.buf[sk])];
        buf[rk] := InvMixWord(t, cty.buf[sk]);
        assert buf[..] == next;
        rk, sk := rk + 1, sk + 1;
      }
    }
  }

  /** The first n words of the decryption schedule dst made from the encryption schedule src. */
  ghost predicate Reversed(dst: seq<bv32>, src: seq<bv32>, nr: nat, n: nat)
    requires 4 * nr + 4 <= |src| && n <= 4 * nr + 4 <= |dst|
  {
    forall q :: 0 <= q < n ==> ReversedWord(dst, src, nr, q)
  }

  ghost predicate ReversedWord(dst: seq<bv32>, src: seq<bv32>, nr: nat, q: nat)
    requires 4 * nr + 4 <= |src| && q < 4 * nr + 4 <= |dst|
  {
    var r, c := q / 4, q % 4;
    var w := src[4 * (nr - r) + c];
    if r == 0 || r == nr then dst[q] == w else Unpack(dst[q]) == InvMixColumn(Unpack(w))
  }

  lemma ReversedNothing(dst: seq<bv32>, src: seq<bv32>, nr: nat)
    requires 4 * nr + 4 <= |src| && 4 * nr + 4 <= |dst|
    ensures Reversed(dst, src, nr, 0)
  {
  }

  lemma ReversedWordKept(dst: seq<bv32>, src: seq<bv32>, nr: nat, p: nat, q: nat, w: bv32)
    requires p < q < 4 * nr + 4 <= |src| && 4 * nr + 4 <= |dst| && ReversedWord(dst, src, nr, p)
    ensures ReversedWord(dst[q := w], src, nr, p)
  {
    hide Unpack, InvMixColumn;
  }

  lemma ReversedExtends(dst: seq<bv32>, src: seq<bv32>, nr: nat, q: nat, w: bv32)
    requires q < 4 * nr + 4 <= |src| && 4 * nr + 4 <= |dst| && Reversed(dst, src, nr, q)
    requires ReversedWord(dst[q := w], src, nr, q)
    ensures Reversed(dst[q := w], src, nr, q + 1)
  {
    hide Unpack, InvMixColumn;
    var next := dst[q := w];
    forall p: nat | p < q ensures ReversedWord(next, src, nr, p) {
      ReversedWordKept(dst, src, nr, p, q, w);
    }
  }

  lemma ReversedCopy(dst: seq<bv32>, src: seq<bv32>, nr: nat, q: nat)
    requires q < 4 * nr + 4 <= |src| && 4 * nr + 4 <= |dst| && Reversed(dst, src, nr, q)
    requires q / 4 == 0 || q / 4 == nr
    ensures Reversed(dst[q := src[4 * (nr - q / 4) + q % 4]], src, nr, q + 1)
  {
    hide Reversed;
    ReversedExtends(dst, src, nr, q, src[4 * (nr - q / 4) + q % 4]);
  }

  lemma ReversedMix(dst: seq<bv32>, src: seq<bv32>, nr: nat, q: nat, w: bv32)
    requires q < 4 * nr + 4 <= |src| && 4 * nr + 4 <= |dst| && Reversed(dst, src, nr, q)
    requires 0 < q / 4 < nr && Unpack(w) == InvMixColumn(Unpack(src[4 * (nr - q / 4) + q % 4]))
    ensures Reversed(dst[q := w], src, nr, q + 1)
  {
    hide Reversed, Unpack, InvMixColumn;
    ReversedExtends(dst, src, nr, q, w);
  }

  lemma ReversedKeys(dst: seq<bv32>, src: seq<bv32>, nr: nat)
    requires 4 * nr + 4 <= |src| && 4 * nr + 4 <= |dst| && Reversed(dst, src, nr, 4 * nr + 4)
    ensures RoundKeys(dst, nr) == DecryptionKeys(RoundKeys(src, nr))
  {
    var keys := RoundKeys(src, nr);
    forall r: nat | r <= nr ensures RoundKeyAt(dst, r) == DecryptionKey(keys, r) {
      hide RoundKeyAt, DecryptionKey, ReversedWord;
      ReversedKey(dst, src, nr, r);
    }
    hide RoundKeyAt, DecryptionKey, Reversed;
  }

  lemma ReversedKey(dst: seq<bv32>, src: seq<bv32>, nr: nat, r: nat)
    requires r <= nr && 4 * nr + 4 <= |src| && 4 * nr + 4 <= |dst|
    requires ReversedWord(dst, src, nr, 4 * r) && ReversedWord(dst, src, nr, 4 * r + 1)
    requires ReversedWord(dst, src, nr, 4 * r + 2) && ReversedWord(dst, src, nr, 4 * r + 3)
    ensures RoundKeyAt(dst, r) == DecryptionKey(RoundKeys(src, nr), r)
  {
    hide Unpack, InvMixColumn;
  }

  /** The tables applied to the S-box: InvMixColumn of one word. */
  function InvMixWord(t: Tables, w: bv32): bv32
    requires t.Shaped()
    reads t.fsb, t.rt0, t.rt1, t.rt2, t.rt3
  {
    Xor(Xor(Xor(t.rt0[t.fsb[Byte0(w) as int] as int], t.rt1[t.fsb[Byte1(w) as int] as int]),
      t.rt2[t.fsb[Byte2(w) as int] as int]), t.rt3[t.fsb[Byte3(w) as int] as int])
  }

  lemma ReverseOfSBox(t: Tables, b: bv8)
    requires t.Shaped() && t.Generated()
    ensures t.rt0[t.fsb[b as int] as int] == Pack(InvMixColumn(ByteInRow(0, b)))
    ensures t.rt1[t.fsb[b as int] as int] == Pack(InvMixColumn(ByteInRow(1, b)))
    ensures t.rt2[t.fsb[b as int] as int] == Pack(InvMixColumn(ByteInRow(2, b)))
    ensures t.rt3[t.fsb[b as int] as int] == Pack(InvMixColumn(ByteInRow(3, b)))
  {
    hide Pack, InvMixColumn, ByteInRow, SubByte, InvSubByte, SBoxTable, ReverseTable;
    var s := SubByte(b);
    SBoxAt(t.fsb[..], b);
    SubByteInverse(b);
    ReverseLookup(t.rt0[..], 0, s);
    ReverseLookup(t.rt1[..], 1, s);
    ReverseLookup(t.rt2[..], 2, s);
    ReverseLookup(t.rt3[..], 3, s);
  }

  lemma InvMixWordMixes(t: Tables, w: bv32)
    requires t.Shaped() && t.Generated()
    ensures Unpack(InvMixWord(t, w)) == InvMixColumn(Unpack(w))
  {
    hide Xor, Pack, InvMixColumn, AddColumn, ByteInRow, Byte0, Byte1, Byte2, Byte3, Tables.Generated;
    var c := Unpack(w);
    ReverseOfSBox(t, c.b0);
    ReverseOfSBox(t, c.b1);
    ReverseOfSBox(t, c.b2);
    ReverseOfSBox(t, c.b3);
    var m0, m1 := InvMixColumn(ByteInRow(0, c.b0)), InvMixColumn(ByteInRow(1, c.b1));
    var m2, m3 := InvMixColumn(ByteInRow(2, c.b2)), InvMixColumn(ByteInRow(3, c.b3));
    PackAdd(m0, m1);
    PackAdd(AddColumn(m0, m1), m2);
    PackAdd(AddColumn(AddColumn(m0, m1), m2), m3);
    AddColumnGroup(m0, m1, m2, m3);
    UnpackPack(AddColumn(AddColumn(AddColumn(m0, m1), m2), m3));
    MixByRows(c);
  }

  lemma AddColumnGroup(a: Column, b: Column, c: Column, d: Column)
    ensures AddColumn(AddColumn(AddColumn(a, b), c), d) == AddColumn(AddColumn(a, b), AddColumn(c, d))
  {
    hide Add;
    AddAssoc(Add(a.b0, b.b0), c.b0, d.b0);
    AddAssoc(Add(a.b1, b.b1), c.b1, d.b1);
    AddAssoc(Add(a.b2, b.b2), c.b2, d.b2);
    AddAssoc(Add(a.b3, b.b3), c.b3, d.b3);
  }

  lemma GroupPosition(nk: nat, i: nat)
    requires KeyLength(nk)
    ensures (nk * i + nk) % nk == 0 && (nk * i + nk) / nk == i + 1
  {
    if nk == 4 { } else if nk == 6 { } else { }
  }

  // --- encryption and decryption of a block ---

  /** The macro AES_FROUND, with the round number in place of the pointer RK, which
      is advanced by four words a round. */
  method ForwardRound(t: Tables, buf: array<bv32>, r: nat, y0: bv32, y1: bv32, y2: bv32, y3: bv32)
    returns (x0: bv32, x1: bv32, x2: bv32, x3: bv32)
    requires t.Shaped() && t.Generated() && 4 * r + 3 < buf.Length
    ensures StateOfWords(x0, x1, x2, x3)
         == AddRoundKey(MixColumns(ShiftRows(SubBytes(StateOfWords(y0, y1, y2, y3)))), RoundKeyAt(buf[..], r))
  {
    hide ForwardColumn, Byte0, Byte1, Byte2, Byte3, MixColumn, AddColumn, SubByte, Tables.Generated;
    x0 := ForwardColumn(t, buf[4 * r], y0, y1, y2, y3);
    x1 := ForwardColumn(t, buf[4 * r + 1], y1, y2, y3, y0);
    x2 := ForwardColumn(t, buf[4 * r + 2], y2, y3, y0, y1);
    x3 := ForwardColumn(t, buf[4 * r + 3], y3, y0, y1, y2);
    ForwardColumnMixes(t, buf[4 * r], y0, y1, y2, y3);
    ForwardColumnMixes(t, buf[4 * r + 1], y1, y2, y3, y0);
    ForwardColumnMixes(t, buf[4 * r + 2], y2, y3, y0, y1);
    ForwardColumnMixes(t, buf[4 * r + 3], y3, y0, y1, y2);
  }

  /** The macro AES_RROUND. */
  method ReverseRound(t: Tables, buf: array<bv32>, r: nat, y0: bv32, y1: bv32, y2: bv32, y3: bv32)
    returns (x0: bv32, x1: bv32, x2: bv32, x3: bv32)
    requires t.Shaped() && t.Generated() && 4 * r + 3 < buf.Length
    ensures StateOfWords(x0, x1, x2, x3)
         == AddRoundKey(InvMixColumns(InvShiftRows(InvSubBytes(StateOfWords(y0, y1, y2, y3)))), RoundKeyAt(buf[..], r))
  {
    hide ReverseColumn, Byte0, Byte1, Byte2, Byte3, InvMixColumn, AddColumn, InvSubByte, Tables.Generated;
    x0 := ReverseColumn(t, buf[4 * r], y0, y3, y2, y1);
    x1 := ReverseColumn(t, buf[4 * r + 1], y1, y0, y3, y2);
    x2 := ReverseColumn(t, buf[4 * r + 2], y2, y1, y0, y3);
    x3 := ReverseColumn(t, buf[4 * r + 3], y3, y2, y1, y0);
    ReverseColumnMixes(t, buf[4 * r], y0, y3, y2, y1);
    ReverseColumnMixes(t, buf[4 * r + 1], y1, y0, y3, y2);
    ReverseColumnMixes(t, buf[4 * r + 2], y2, y1, y0, y3);
    ReverseColumnMixes(t, buf[4 * r + 3], y3, y2, y1, y0);
  }

  method LastForwardRound(t: Tables, buf: array<bv32>, r: nat, y0: bv32, y1: bv32, y2: bv32, y3: bv32)
    returns (x0: bv32, x1: bv32, x2: bv32, x3: bv32)
    requires t.Shaped() && t.Generated() && 4 * r + 3 < buf.Length
    ensures StateOfWords(x0, x1, x2, x3)
         == AddRoundKey(ShiftRows(SubBytes(StateOfWords(y0, y1, y2, y3))), RoundKeyAt(buf[..], r))
  {
    hide Byte0, Byte1, Byte2, Byte3, AddColumn, SubByte, LastColumn, Tables.Generated;
    x0 := LastForwardColumn(t, buf[4 * r], y0, y1, y2, y3);
    x1 := LastForwardColumn(t, buf[4 * r + 1], y1, y2, y3, y0);
    x2 := LastForwardColumn(t, buf[4 * r + 2], y2, y3, y0, y1);
    x3 := LastForwardColumn(t, buf[4 * r + 3], y3, y0, y1, y2);
  }

  method LastForwardColumn(t: Tables, k: bv32, y0: bv32, y1: bv32, y2: bv32, y3: bv32) returns (x: bv32)
    requires t.Shaped() && t.Generated()
    ensures Unpack(x) == AddColumn(SubColumn(Column(Byte0(y0), Byte1(y1), Byte2(y2), Byte3(y3))), Unpack(k))
  {
    hide Byte0, Byte1, Byte2, Byte3, Unpack, AddColumn, SubByte, LastColumn, Tables.Generated;
    x := LastColumn(k, t.fsb[Byte0(y0) as int], t.fsb[Byte1(y1) as int], t.fsb[Byte2(y2) as int], t.fsb[Byte3(y3) as int]);
    SubLookup(t, Byte0(y0));
    SubLookup(t, Byte1(y1));
    SubLookup(t, Byte2(y2));
    SubLookup(t, Byte3(y3));
    LastColumnAdds(k, SubByte(Byte0(y0)), SubByte(Byte1(y1)), SubByte(Byte2(y2)), SubByte(Byte3(y3)));
  }

  method LastReverseRound(t: Tables, buf: array<bv32>, r: nat, y0: bv32, y1: bv32, y2: bv32, y3: bv32)
    returns (x0: bv32, x1: bv32, x2: bv32, x3: bv32)
    requires t.Shaped() && t.Generated() && 4 * r + 3 < buf.Length
    ensures StateOfWords(x0, x1, x2, x3)
         == AddRoundKey(InvShiftRows(InvSubBytes(StateOfWords(y0, y1, y2, y3))), RoundKeyAt(buf[..], r))
  {
    hide Byte0, Byte1, Byte2, Byte3, AddColumn, InvSubByte, LastColumn, Tables.Generated;
    x0 := LastReverseColumn(t, buf[4 * r], y0, y3, y2, y1);
    x1 := LastReverseColumn(t, buf[4 * r + 1], y1, y0, y3, y2);
    x2 := LastReverseColumn(t, buf[4 * r + 2], y2, y1, y0, y3);
    x3 := LastReverseColumn(t, buf[4 * r + 3], y3, y2, y1, y0);
  }

  method LastReverseColumn(t: Tables, k: bv32, y0: bv32, y1: bv32, y2: bv32, y3: bv32) returns (x: bv32)
    requires t.Shaped() && t.Generated()
    ensures Unpack(x) == AddColumn(InvSubColumn(Column(Byte0(y0), Byte1(y1), Byte2(y2), Byte3(y3))), Unpack(k))
  {
    hide Byte0, Byte1, Byte2, Byte3, Unpack, AddColumn, InvSubByte, LastColumn, Tables.Generated;
    x := LastColumn(k, t.rsb[Byte0(y0) as int], t.rsb[Byte1(y1) as int], t.rsb[Byte2(y2) as int], t.rsb[Byte3(y3) as int]);
    InvSubLookup(t, Byte0(y0));
    InvSubLookup(t, Byte1(y1));
    InvSubLookup(t, Byte2(y2));
    InvSubLookup(t, Byte3(y3));
    LastColumnAdds(k, InvSubByte(Byte0(y0)), InvSubByte(Byte1(y1)), InvSubByte(Byte2(y2)), InvSubByte(Byte3(y3)));
  }

  /** The four `GET_UINT32_LE` and the initial key addition. */
  method LoadBlock(buf: array<bv32>, input: array<bv8>)
    returns (x0: bv32, x1: bv32, x2: bv32, x3: bv32)
    requires buf.Length >= 4 && input.Length == 16
    ensures StateOfWords(x0, x1, x2, x3) == AddRoundKey(StateOfBytes(input[..]), RoundKeyAt(buf[..], 0))
  {
    hide Pack, Unpack, Xor, AddColumn;
    x0 := LoadWord(buf[0], input, 0);
    x1 := LoadWord(buf[1], input, 4);
    x2 := LoadWord(buf[2], input, 8);
    x3 := LoadWord(buf[3], input, 12);
  }

  method LoadWord(k: bv32, input: array<bv8>, i: nat) returns (x: bv32)
    requires i + 4 <= input.Length
    ensures Unpack(x) == AddColumn(ColumnAt(input[..], i), Unpack(k))
  {
    hide Pack, Unpack, Xor, AddColumn;
    var c := Column(input[i], input[i + 1], input[i + 2], input[i + 3]);
    x := Xor(Pack(c), k);
    PackUnpack(k);
    PackAdd(c, Unpack(k));
    UnpackPack(AddColumn(c, Unpack(k)));
  }

  /** The four `PUT_UINT32_LE`. */
  method StoreBlock(x0: bv32, x1: bv32, x2: bv32, x3: bv32, output: array<bv8>)
    requires output.Length == 16
    modifies output
    ensures output[..] == BytesOfState(StateOfWords(x0, x1, x2, x3))
  {
    hide Unpack, BytesOfState;
    StoreWord(x0, output, 0);
    StoreWord(x1, output, 4);
    StoreWord(x2, output, 8);
    StoreWord(x3, output, 12);
    BytesOfStateOfBytes(output[..]);
  }

  method StoreWord(x: bv32, output: array<bv8>, i: nat)
    requires i + 4 <= output.Length
    modifies output
    ensures ColumnAt(output[..], i) == Unpack(x)
    ensures forall k :: 0 <= k < output.Length && !(i <= k < i + 4) ==> output[k] == old(output[k])
  {
    hide Byte0, Byte1, Byte2, Byte3;
    output[i], output[i + 1], output[i + 2], output[i + 3] := Byte0(x), Byte1(x), Byte2(x), Byte3(x);
  }

  /** `mbedtls_aes_encrypt`; the input and output blocks may be the same. */
  method Encrypt(t: Tables, ctx: Context, input: array<bv8>, output: array<bv8>)
    requires t.Shaped() && t.Generated() && ctx.Keyed()
    requires input.Length == 16 && output.Length == 16
    requires output as object != ctx.buf as object && output as object !in t.Repr
    modifies output
    ensures output[..] == BytesOfState(Cipher(ctx.Keys(), StateOfBytes(old(input[..]))))
  {
    hide StateOfWords, StateOfBytes, AddRoundKey, MixColumns, ShiftRows, SubBytes, RoundKeyAt, Tables.Generated, Tables.Shaped;
    ghost var keys, s := ctx.Keys(), StateOfBytes(input[..]);
    var y0, y1, y2, y3;
    var x0, x1, x2, x3 := LoadBlock(ctx.buf, input);
    var r := 1;
    var i := ctx.nr / 2 - 1;
    while i > 0
      invariant 0 <= i && r == ctx.nr - 2 * i - 1
      invariant StateOfWords(x0, x1, x2, x3) == Rounds(keys, ctx.nr - 2 * i - 2, s)
    {
      y0, y1, y2, y3 := ForwardRound(t, ctx.buf, r, x0, x1, x2, x3);
      r := r + 1;
      x0, x1, x2, x3 := ForwardRound(t, ctx.buf, r, y0, y1, y2, y3);
      r := r + 1;
      i := i - 1;
    }
    y0, y1, y2, y3 := ForwardRound(t, ctx.buf, r, x0, x1, x2, x3);
    r := r + 1;
    x0, x1, x2, x3 := LastForwardRound(t, ctx.buf, r, y0, y1, y2, y3);
    StoreBlock(x0, x1, x2, x3, output);
  }

  /** `mbedtls_aes_decrypt`. */
  method Decrypt(t: Tables, ctx: Context, input: array<bv8>, output: array<bv8>)
    requires t.Shaped() && t.Generated() && ctx.Keyed()
    requires input.Length == 16 && output.Length == 16
    requires output as object != ctx.buf as object && output as object !in t.Repr
    modifies output
    ensures output[..] == BytesOfState(EqInvCipher(ctx.Keys(), StateOfBytes(old(input[..]))))
  {
    hide StateOfWords, StateOfBytes, AddRoundKey, InvMixColumns, InvShiftRows, InvSubBytes, RoundKeyAt, Tables.Generated, Tables.Shaped;
    ghost var keys, s := ctx.Keys(), StateOfBytes(input[..]);
    var y0, y1, y2, y3;
    var x0, x1, x2, x3 := LoadBlock(ctx.buf, input);
    var r := 1;
    var i := ctx.nr / 2 - 1;
    while i > 0
      invariant 0 <= i && r == ctx.nr - 2 * i - 1
      invariant StateOfWords(x0, x1, x2, x3) == EqInvRounds(keys, ctx.nr - 2 * i - 2, s)
    {
      y0, y1, y2, y3 := ReverseRound(t, ctx.buf, r, x0, x1, x2, x3);
      r := r + 1;
      x0, x1, x2, x3 := ReverseRound(t, ctx.buf, r, y0, y1, y2, y3);
      r := r + 1;
      i := i - 1;
    }
    y0, y1, y2, y3 := ReverseRound(t, ctx.buf, r, x0, x1, x2, x3);
    r := r + 1;
    x0, x1, x2, x3 := LastReverseRound(t, ctx.buf, r, y0, y1, y2, y3);
    StoreBlock(x0, x1, x2, x3, output);
  }

  // --- the block cipher as a function of key and block ---

  /** What `mbedtls_aes_encrypt` computes under a key set by `mbedtls_aes_setkey_enc`. */
  ghost function EncryptBlock(key: seq<bv8>, block: seq<bv8>): (r: seq<bv8>)
    requires SupportedLength(|key|) && |block| == 16
    ensures |r| == 16
  {
    BytesOfState(Cipher(ExpandedKey(key), StateOfBytes(block)))
  }

  lemma EncryptBlockIs(key: seq<bv8>, block: seq<bv8>)
    requires SupportedLength(|key|) && |block| == 16
    ensures EncryptBlock(key, block) == BytesOfState(Cipher(KeyExpansion(KeyColumns(key)), StateOfBytes(block)))
  {
  }

  /** What `mbedtls_aes_decrypt` computes under a key set by `mbedtls_aes_setkey_dec`. */
  ghost function DecryptBlock(key: seq<bv8>, block: seq<bv8>): (r: seq<bv8>)
    requires SupportedLength(|key|) && |block| == 16
    ensures |r| == 16
  {
    BytesOfState(EqInvCipher(DecryptionKeys(ExpandedKey(key)), StateOfBytes(block)))
  }

  /** For every key of each of the three sizes and every block, decryption undoes encryption. */
  lemma DecryptEncryptBlock(key: seq<bv8>, block: seq<bv8>)
    requires SupportedLength(|key|) && |block| == 16
    ensures DecryptBlock(key, EncryptBlock(key, block)) == block
  {
    hide Cipher, EqInvCipher, StateOfBytes, BytesOfState, DecryptionKeys;
    var keys := ExpandedKey(key);
    EqInvCipherInverts(keys, StateOfBytes(block));
    BytesOfStateOfBytes(block);
  }

  /** The four entry points together: a block encrypted under a key and decrypted under the same key
      in another context comes back unchanged. */
  method EncryptThenDecrypt(t: Tables, enc: Context, dec: Context, key: array<bv8>, keybits: int,
                            input: array<bv8>, middle: array<bv8>, output: array<bv8>) returns (ret: int)
    requires t.Valid() && enc.Shaped() && dec.Shaped() && enc != dec && enc.buf != dec.buf
    requires enc.buf !in t.Repr && dec.buf !in t.Repr
    requires {key as object, input, middle, output} !! t.Repr + {enc.buf as object, dec.buf}
    requires key != middle && input != middle && middle != output
    requires SupportedKey(keybits) ==> key.Length == keybits / 8
    requires input.Length == 16 && middle.Length == 16 && output.Length == 16
    modifies enc, enc.buf, dec, dec.buf, t, t.Repr, middle, output
    ensures ret == if SupportedKey(keybits) then 0 else -0x0020
    ensures ret == 0 ==> output[..] == old(input[..])
  {
    hide Tables.Generated, Tables.Shaped, Cipher, EqInvCipher, DecryptionKeys, StateOfBytes, BytesOfState, ExpandedKey, RoundKeys;
    ghost var k, block := key[..], input[..];
    ret := enc.SetKeyEnc(t, key, keybits);
    if ret != 0 { return; }
    ret := dec.SetKeyDec(t, key, keybits);
    Encrypt(t, enc, input, middle);
    assert middle[..] == EncryptBlock(k, block);
    Decrypt(t, dec, middle, output);
    DecryptEncryptBlock(k, block);
  }
}
