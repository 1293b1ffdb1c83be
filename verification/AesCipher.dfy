/** The table lines of mid/aes_e/aes_e.c: what one column of a round computes, in either direction, and how
    words, bytes and states of Rijndael correspond. */
module AesCipher {
  import opened GaloisField
  import opened Rijndael
  import opened Words
  import opened AesTables
  import opened Aes

  // --- bytes, words and states ---

  function StateOfWords(x0: bv32, x1: bv32, x2: bv32, x3: bv32): State {
    State(Unpack(x0), Unpack(x1), Unpack(x2), Unpack(x3))
  }

  function ColumnAt(b: seq<bv8>, i: nat): Column
    requires i + 4 <= |b|
  {
    Column(b[i], b[i + 1], b[i + 2], b[i + 3])
  }

  /** Sixteen bytes fill the state column by column (FIPS 197, section 3.4). */
  function StateOfBytes(b: seq<bv8>): State
    requires |b| == 16
  {
    State(ColumnAt(b, 0), ColumnAt(b, 4), ColumnAt(b, 8), ColumnAt(b, 12))
  }

  function BytesOfColumn(c: Column): seq<bv8> {
    [c.b0, c.b1, c.b2, c.b3]
  }

  function BytesOfState(s: State): (b: seq<bv8>)
    ensures |b| == 16 && StateOfBytes(b) == s
  {
    BytesOfColumn(s.c0) + BytesOfColumn(s.c1) + BytesOfColumn(s.c2) + BytesOfColumn(s.c3)
  }

  lemma BytesOfStateOfBytes(b: seq<bv8>)
    requires |b| == 16
    ensures BytesOfState(StateOfBytes(b)) == b
  {
  }

  function RoundKeyAt(buf: seq<bv32>, r: nat): State
    requires 4 * r + 3 < |buf|
  {
    StateOfWords(buf[4 * r], buf[4 * r + 1], buf[4 * r + 2], buf[4 * r + 3])
  }

  /** The nr + 1 round keys held in a key buffer. */
  function RoundKeys(buf: seq<bv32>, nr: nat): (keys: seq<State>)
    requires 4 * nr + 3 < |buf|
  {
    seq(nr + 1, r requires 0 <= r <= nr => RoundKeyAt(buf, r))
  }

  function KeyColumns(key: seq<bv8>): (cols: seq<Column>)
    requires |key| % 4 == 0
    ensures |cols| == |key| / 4
  {
    seq(|key| / 4, i requires 0 <= i < |key| / 4 => ColumnAt(key, 4 * i))
  }

  // --- one column of a round ---

  lemma AddColumnShuffle(k: Column, m0: Column, m1: Column, m2: Column, m3: Column)
    ensures AddColumn(AddColumn(AddColumn(AddColumn(k, m0), m1), m2), m3)
         == AddColumn(AddColumn(AddColumn(m0, m1), AddColumn(m2, m3)), k)
  {
    hide Add;
    AddShuffle(k.b0, m0.b0, m1.b0, m2.b0, m3.b0);
    AddShuffle(k.b1, m0.b1, m1.b1, m2.b1, m3.b1);
    AddShuffle(k.b2, m0.b2, m1.b2, m2.b2, m3.b2);
    AddShuffle(k.b3, m0.b3, m1.b3, m2.b3, m3.b3);
  }

  lemma AddShuffle(k: bv8, a: bv8, b: bv8, c: bv8, d: bv8)
    ensures Add(Add(Add(Add(k, a), b), c), d) == Add(Add(Add(a, b), Add(c, d)), k)
  {
    hide Add;
    AddAssoc(k, a, b);
    AddAssoc(k, Add(a, b), c);
    AddAssoc(k, Add(Add(a, b), c), d);
    AddAssoc(Add(a, b), c, d);
    AddComm(k, Add(Add(a, b), Add(c, d)));
  }

  lemma XorOfColumns(k: bv32, t0: bv32, t1: bv32, t2: bv32, t3: bv32,
                     m0: Column, m1: Column, m2: Column, m3: Column)
    requires t0 == Pack(m0) && t1 == Pack(m1) && t2 == Pack(m2) && t3 == Pack(m3)
    ensures Unpack(XorFive(k, t0, t1, t2, t3))
         == AddColumn(AddColumn(AddColumn(m0, m1), AddColumn(m2, m3)), Unpack(k))
  {
    hide Xor, Pack, Unpack, AddColumn;
    var kc := Unpack(k);
    PackUnpack(k);
    PackAdd(kc, m0);
    PackAdd(AddColumn(kc, m0), m1);
    PackAdd(AddColumn(AddColumn(kc, m0), m1), m2);
    PackAdd(AddColumn(AddColumn(AddColumn(kc, m0), m1), m2), m3);
    AddColumnShuffle(kc, m0, m1, m2, m3);
    UnpackPack(AddColumn(AddColumn(AddColumn(AddColumn(kc, m0), m1), m2), m3));
  }

  function XorFive(k: bv32, t0: bv32, t1: bv32, t2: bv32, t3: bv32): bv32 {
    Xor(Xor(Xor(Xor(k, t0), t1), t2), t3)
  }

  lemma SumOfRows(c: Column)
    ensures c == AddColumn(AddColumn(ByteInRow(0, c.b0), ByteInRow(1, c.b1)), AddColumn(ByteInRow(2, c.b2), ByteInRow(3, c.b3)))
  {
    hide Add;
    AddSelf(0, 0);
    AddSelf(c.b0, 0);
    AddSelf(c.b1, 0);
    AddSelf(c.b2, 0);
    AddSelf(c.b3, 0);
  }

  lemma MixByRows(c: Column)
    ensures MixColumn(c) ==
      AddColumn(AddColumn(MixColumn(ByteInRow(0, c.b0)), MixColumn(ByteInRow(1, c.b1))),
                AddColumn(MixColumn(ByteInRow(2, c.b2)), MixColumn(ByteInRow(3, c.b3))))
    ensures InvMixColumn(c) ==
      AddColumn(AddColumn(InvMixColumn(ByteInRow(0, c.b0)), InvMixColumn(ByteInRow(1, c.b1))),
                AddColumn(InvMixColumn(ByteInRow(2, c.b2)), InvMixColumn(ByteInRow(3, c.b3))))
  {
    hide *;
    var r0, r1, r2, r3 := ByteInRow(0, c.b0), ByteInRow(1, c.b1), ByteInRow(2, c.b2), ByteInRow(3, c.b3);
    SumOfRows(c);
    MixColumnAdd(r0, r1);
    MixColumnAdd(r2, r3);
    MixColumnAdd(AddColumn(r0, r1), AddColumn(r2, r3));
    InvMixColumnAdd(r0, r1);
    InvMixColumnAdd(r2, r3);
    InvMixColumnAdd(AddColumn(r0, r1), AddColumn(r2, r3));
  }

  /** One line of the macro AES_FROUND. */
  function ForwardColumn(t: Tables, k: bv32, y0: bv32, y1: bv32, y2: bv32, y3: bv32): bv32
    requires t.Shaped()
    reads t.ft0, t.ft1, t.ft2, t.ft3
  {
    XorFive(k, t.ft0[Byte0(y0) as int], t.ft1[Byte1(y1) as int], t.ft2[Byte2(y2) as int], t.ft3[Byte3(y3) as int])
  }

  /** One line of the macro AES_RROUND. */
  function ReverseColumn(t: Tables, k: bv32, y0: bv32, y1: bv32, y2: bv32, y3: bv32): bv32
    requires t.Shaped()
    reads t.rt0, t.rt1, t.rt2, t.rt3
  {
    XorFive(k, t.rt0[Byte0(y0) as int], t.rt1[Byte1(y1) as int], t.rt2[Byte2(y2) as int], t.rt3[Byte3(y3) as int])
  }

  /** One word of the last round, from four substituted bytes. */
  function LastColumn(k: bv32, b0: bv8, b1: bv8, b2: bv8, b3: bv8): bv32 {
    XorFive(k, b0 as bv32, (b1 as bv32) << 8, (b2 as bv32) << 16, (b3 as bv32) << 24)
  }

  lemma ForwardLookup(ft: seq<bv32>, r: int, b: bv8)
    requires ForwardTable(ft, r)
    ensures ft[b as int] == Pack(MixColumn(ByteInRow(r, SubByte(b))))
  {
    hide Pack, MixColumn, ByteInRow, SubByte;
  }

  lemma ReverseLookup(rt: seq<bv32>, r: int, b: bv8)
    requires ReverseTable(rt, r)
    ensures rt[b as int] == Pack(InvMixColumn(ByteInRow(r, InvSubByte(b))))
  {
    hide Pack, InvMixColumn, ByteInRow, InvSubByte;
  }

  /** A table line computes SubBytes, MixColumns and the key addition of one column. */
  lemma ForwardColumnMixes(t: Tables, k: bv32, y0: bv32, y1: bv32, y2: bv32, y3: bv32)
    requires t.Shaped() && t.Generated()
    ensures Unpack(ForwardColumn(t, k, y0, y1, y2, y3))
         == AddColumn(MixColumn(SubColumn(Column(Byte0(y0), Byte1(y1), Byte2(y2), Byte3(y3)))), Unpack(k))
  {
    hide XorFive, Pack, Unpack, MixColumn, ByteInRow, SubByte, AddColumn, Byte0, Byte1, Byte2, Byte3, ForwardTable;
    var c := SubColumn(Column(Byte0(y0), Byte1(y1), Byte2(y2), Byte3(y3)));
    ForwardLookup(t.ft0[..], 0, Byte0(y0));
    ForwardLookup(t.ft1[..], 1, Byte1(y1));
    ForwardLookup(t.ft2[..], 2, Byte2(y2));
    ForwardLookup(t.ft3[..], 3, Byte3(y3));
    XorOfColumns(k, t.ft0[Byte0(y0) as int], t.ft1[Byte1(y1) as int], t.ft2[Byte2(y2) as int], t.ft3[Byte3(y3) as int],
      MixColumn(ByteInRow(0, c.b0)), MixColumn(ByteInRow(1, c.b1)), MixColumn(ByteInRow(2, c.b2)), MixColumn(ByteInRow(3, c.b3)));
    MixByRows(c);
  }

  lemma ReverseColumnMixes(t: Tables, k: bv32, y0: bv32, y1: bv32, y2: bv32, y3: bv32)
    requires t.Shaped() && t.Generated()
    ensures Unpack(ReverseColumn(t, k, y0, y1, y2, y3))
         == AddColumn(InvMixColumn(InvSubColumn(Column(Byte0(y0), Byte1(y1), Byte2(y2), Byte3(y3)))), Unpack(k))
  {
    hide XorFive, Pack, Unpack, InvMixColumn, ByteInRow, InvSubByte, AddColumn, Byte0, Byte1, Byte2, Byte3, ReverseTable;
    var c := InvSubColumn(Column(Byte0(y0), Byte1(y1), Byte2(y2), Byte3(y3)));
    ReverseLookup(t.rt0[..], 0, Byte0(y0));
    ReverseLookup(t.rt1[..], 1, Byte1(y1));
    ReverseLookup(t.rt2[..], 2, Byte2(y2));
    ReverseLookup(t.rt3[..], 3, Byte3(y3));
    XorOfColumns(k, t.rt0[Byte0(y0) as int], t.rt1[Byte1(y1) as int], t.rt2[Byte2(y2) as int], t.rt3[Byte3(y3) as int],
      InvMixColumn(ByteInRow(0, c.b0)), InvMixColumn(ByteInRow(1, c.b1)), InvMixColumn(ByteInRow(2, c.b2)), InvMixColumn(ByteInRow(3, c.b3)));
    MixByRows(c);
  }

  lemma LastColumnAdds(k: bv32, b0: bv8, b1: bv8, b2: bv8, b3: bv8)
    ensures Unpack(LastColumn(k, b0, b1, b2, b3)) == AddColumn(Column(b0, b1, b2, b3), Unpack(k))
  {
    hide Pack, Unpack, AddColumn;
    var c := Column(b0, b1, b2, b3);
    XorLast(k, b0 as bv32, (b1 as bv32) << 8, (b2 as bv32) << 16, (b3 as bv32) << 24);
    PackXor(b0, b1, b2, b3);
    hide Xor;
    PackUnpack(k);
    PackAdd(c, Unpack(k));
    UnpackPack(AddColumn(c, Unpack(k)));
  }

  lemma XorLast(k: bv32, a: bv32, b: bv32, c: bv32, d: bv32)
    ensures Xor(Xor(Xor(Xor(k, a), b), c), d) == Xor(Xor(Xor(Xor(a, b), c), d), k)
  {
  }
}
