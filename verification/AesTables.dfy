/** The run-time generated tables of the cipher (mid/aes_e/aes_e.c, `aes_gen_tables`). */
module AesTables {
  import opened GaloisField
  import opened Rijndael
  import opened Words

  // --- what the tables hold ---

  ghost predicate PowerTable(pow: seq<bv8>) {
    |pow| == 256 && forall j: nat :: j < 256 ==> pow[j] == Pow3(j)
  }

  ghost predicate LogEntry(log: seq<int>, b: bv8)
    requires |log| == 256
  {
    0 <= log[b as int] < 256 && Pow3(log[b as int]) == b
  }

  /** The entry for 0 stays undefined. */
  ghost predicate LogTable(log: seq<int>) {
    |log| == 256 && forall b: bv8 :: b != 0 ==> LogEntry(log, b)
  }

  ghost predicate SBoxTable(fsb: seq<bv8>) {
    SBoxUpTo(fsb, 256)
  }

  ghost predicate SBoxUpTo(fsb: seq<bv8>, n: int) {
    |fsb| == 256 && forall b: bv8 :: b as int < n ==> fsb[b as int] == SubByte(b)
  }

  ghost predicate InvSBoxTable(rsb: seq<bv8>) {
    |rsb| == 256 && forall b: bv8 :: rsb[b as int] == InvSubByte(b)
  }

  /** The reverse entries written while the first n S-box entries are computed. */
  ghost predicate InvSBoxUpTo(rsb: seq<bv8>, n: int) {
    |rsb| == 256 && forall b: bv8 :: b as int < n ==> rsb[SubByte(b) as int] == b
  }

  function ByteInRow(r: int, x: bv8): Column {
    Column(if r == 0 then x else 0, if r == 1 then x else 0, if r == 2 then x else 0, if r == 3 then x else 0)
  }

  /** Entry b is the MixColumns image of the column holding only SubByte(b), in row r. */
  ghost predicate ForwardTable(ft: seq<bv32>, r: int) {
    ForwardUpTo(ft, r, 256)
  }

  ghost predicate ForwardUpTo(ft: seq<bv32>, r: int, n: int) {
    |ft| == 256 && forall b: bv8 :: b as int < n ==> ft[b as int] == Pack(MixColumn(ByteInRow(r, SubByte(b))))
  }

  /** Entry b is the InvMixColumns image of the column holding only InvSubByte(b), in row r. */
  ghost predicate ReverseTable(rt: seq<bv32>, r: int) {
    ReverseUpTo(rt, r, 256)
  }

  ghost predicate ReverseUpTo(rt: seq<bv32>, r: int, n: int) {
    |rt| == 256 && forall b: bv8 :: b as int < n ==> rt[b as int] == Pack(InvMixColumn(ByteInRow(r, InvSubByte(b))))
  }

  ghost predicate RoundConstants(rcon: seq<bv32>) {
    |rcon| == 10 && forall i :: 0 <= i < 10 ==> rcon[i] == Pack(Rcon(i + 1))
  }

  // --- facts behind the loops ---

  lemma LogTableComplete(log: seq<int>)
    requires |log| == 256
    requires forall j: nat :: j < 256 ==> LogEntry(log, Pow3(j))
    ensures LogTable(log)
  {
    hide Pow3;
    forall b: bv8 | b != 0
      ensures LogEntry(log, b)
    {
      var j := Pow3Onto(b);
    }
  }

  /** The table entry 255 - log is the inverse, also for 1, whose logarithm is left at 255. */
  lemma InverseByLog(b: bv8, l: nat)
    requires b != 0 && l < 256 && Pow3(l) == b
    ensures Pow3(255 - l) == Inverse(b)
  {
    hide Pow3, Mul;
    LargePowersOf3();
    Pow3Add(l, 255 - l);
    InverseUnique(b, Pow3(255 - l), Inverse(b));
  }

  lemma Pow3Mod255(n: nat)
    ensures Pow3(n % 255) == Pow3(n)
  {
    hide Pow3, Mul;
    LargePowersOf3();
    Pow3Cycle(255, n / 255);
    Pow3Add(255 * (n / 255), n % 255);
    MulOne(Pow3(n % 255));
    assert 255 * (n / 255) + n % 255 == n;
  }

  lemma ProductByLog(la: nat, lb: nat)
    ensures Pow3((la + lb) % 255) == Mul(Pow3(la), Pow3(lb))
  {
    hide Pow3, Mul;
    Pow3Add(la, lb);
    Pow3Mod255(la + lb);
  }

  lemma SmallMultiples(x: bv8)
    ensures Mul(2, x) == Xtime(x) && Mul(3, x) == Times3(x)
  {
    hide PartialProduct;
    assert Xtime(1) == 2;
    assert Times3(1) == 3;
    hide Add, Xtime, Times3;
    MulOne(x);
    PartialProductXtime(1, x, 8);
    MulTimes3(1, x);
  }

  lemma ByteInRowRotates(x: bv8)
    ensures RotateDown(ByteInRow(0, x)) == ByteInRow(1, x)
    ensures RotateDown(ByteInRow(1, x)) == ByteInRow(2, x)
    ensures RotateDown(ByteInRow(2, x)) == ByteInRow(3, x)
  {
  }

  lemma ForwardEntry(x: bv8, y: bv8, z: bv8, t: bv32)
    requires y == Xtime(x) && z == Add(y, x)
    requires t == XorWord(y, x, x, z)
    ensures t == Pack(MixColumn(ByteInRow(0, x)))
    ensures Rotl8(t) == Pack(MixColumn(ByteInRow(1, x)))
    ensures Rotl8(Rotl8(t)) == Pack(MixColumn(ByteInRow(2, x)))
    ensures Rotl8(Rotl8(Rotl8(t))) == Pack(MixColumn(ByteInRow(3, x)))
  {
    hide *;
    PackXor(y, x, x, z);
    MixRow0(x, y, z);
    Rotations(MixColumn(ByteInRow(0, x)));
    MixRotations(x);
  }

  lemma MixRow0(x: bv8, y: bv8, z: bv8)
    requires y == Xtime(x) && z == Add(y, x)
    ensures MixColumn(ByteInRow(0, x)) == Column(y, x, x, z)
  {
    AddComm(x, y);
    assert z == Times3(x);
    hide Xtime, Mul, Times3, MixColumn;
    SmallMultiples(x);
    MulOne(x);
    MixColumnRow0(x);
  }

  lemma Rotations(c: Column)
    ensures Rotl8(Pack(c)) == Pack(RotateDown(c))
    ensures Rotl8(Rotl8(Pack(c))) == Pack(RotateDown(RotateDown(c)))
    ensures Rotl8(Rotl8(Rotl8(Pack(c)))) == Pack(RotateDown(RotateDown(RotateDown(c))))
  {
    hide Rotl8, Pack, RotateDown;
    PackRotate(c);
    PackRotate(RotateDown(c));
    PackRotate(RotateDown(RotateDown(c)));
  }

  lemma MixRotations(x: bv8)
    ensures RotateDown(MixColumn(ByteInRow(0, x))) == MixColumn(ByteInRow(1, x))
    ensures RotateDown(MixColumn(ByteInRow(1, x))) == MixColumn(ByteInRow(2, x))
    ensures RotateDown(MixColumn(ByteInRow(2, x))) == MixColumn(ByteInRow(3, x))
    ensures RotateDown(InvMixColumn(ByteInRow(0, x))) == InvMixColumn(ByteInRow(1, x))
    ensures RotateDown(InvMixColumn(ByteInRow(1, x))) == InvMixColumn(ByteInRow(2, x))
    ensures RotateDown(InvMixColumn(ByteInRow(2, x))) == InvMixColumn(ByteInRow(3, x))
  {
    hide MixColumn, InvMixColumn;
    ByteInRowRotates(x);
    hide RotateDown, ByteInRow;
    MixRotate(ByteInRow(0, x));
    MixRotate(ByteInRow(1, x));
    MixRotate(ByteInRow(2, x));
  }

  lemma ReverseEntry(x: bv8, t: bv32)
    requires t == XorWord(Mul(0x0E, x), Mul(0x09, x), Mul(0x0D, x), Mul(0x0B, x))
    ensures t == Pack(InvMixColumn(ByteInRow(0, x)))
    ensures Rotl8(t) == Pack(InvMixColumn(ByteInRow(1, x)))
    ensures Rotl8(Rotl8(t)) == Pack(InvMixColumn(ByteInRow(2, x)))
    ensures Rotl8(Rotl8(Rotl8(t))) == Pack(InvMixColumn(ByteInRow(3, x)))
  {
    hide Mul, Pack, XorWord, Rotl8, Dot;
    PackXor(Mul(0x0E, x), Mul(0x09, x), Mul(0x0D, x), Mul(0x0B, x));
    SparseDots(x);
    assert t == Pack(InvMixColumn(ByteInRow(0, x)));
    hide InvMixColumn;
    Rotations(InvMixColumn(ByteInRow(0, x)));
    MixRotations(x);
  }

  lemma ForwardExtends(ft: seq<bv32>, r: int, n: nat, c: bv8, t: bv32)
    requires n < 256 && n == c as int && ForwardUpTo(ft, r, n)
    requires t == Pack(MixColumn(ByteInRow(r, SubByte(c))))
    ensures ForwardUpTo(ft[n := t], r, n + 1)
  {
    hide Pack, MixColumn, ByteInRow, SubByte;
    forall b: bv8 | b as int < n + 1
      ensures ft[n := t][b as int] == Pack(MixColumn(ByteInRow(r, SubByte(b))))
    {
      if b as int == n { SameIndex(b, c); }
    }
  }

  lemma ReverseExtends(rt: seq<bv32>, r: int, n: nat, c: bv8, t: bv32)
    requires n < 256 && n == c as int && ReverseUpTo(rt, r, n)
    requires t == Pack(InvMixColumn(ByteInRow(r, InvSubByte(c))))
    ensures ReverseUpTo(rt[n := t], r, n + 1)
  {
    hide Pack, InvMixColumn, ByteInRow, InvSubByte;
    forall b: bv8 | b as int < n + 1
      ensures rt[n := t][b as int] == Pack(InvMixColumn(ByteInRow(r, InvSubByte(b))))
    {
      if b as int == n { SameIndex(b, c); }
    }
  }

  lemma LogExtends(log: seq<int>, x: bv8, i: nat, b: bv8)
    requires |log| == 256 && i < 256 && Pow3(i) == x
    requires b == x || LogEntry(log, b)
    ensures LogEntry(log[x as int := i], b)
  {
    hide Pow3;
    if b as int == x as int { SameIndex(b, x); }
  }

  lemma SBoxOfZero()
    ensures SubByte(0) == 0x63
  {
  }

  lemma SBoxStart(fsb: seq<bv8>, rsb: seq<bv8>)
    requires |fsb| == 256 && |rsb| == 256
    ensures SBoxUpTo(fsb[0 := 0x63], 1) && InvSBoxUpTo(rsb[0x63 := 0], 1)
  {
    hide SubByte;
    SBoxOfZero();
  }

  lemma SBoxExtends(fsb: seq<bv8>, n: nat, c: bv8)
    requires n < 256 && n == c as int && SBoxUpTo(fsb, n)
    ensures SBoxUpTo(fsb[n := SubByte(c)], n + 1)
  {
    hide SubByte;
    forall b: bv8 | b as int < n + 1 ensures fsb[n := SubByte(c)][b as int] == SubByte(b) {
      if b as int == n { SameIndex(b, c); }
    }
  }

  lemma InvSBoxExtends(rsb: seq<bv8>, n: nat, c: bv8)
    requires n < 256 && n == c as int && InvSBoxUpTo(rsb, n)
    ensures InvSBoxUpTo(rsb[SubByte(c) as int := c], n + 1)
  {
    hide SubByte;
    forall b: bv8 | b as int < n + 1 ensures rsb[SubByte(c) as int := c][SubByte(b) as int] == b {
      if b as int == n {
        SameIndex(b, c);
      } else if SubByte(b) as int == SubByte(c) as int {
        SameIndex(SubByte(b), SubByte(c));
        DistinctSubBytes(b, c);
      }
    }
  }

  lemma DistinctSubBytes(b: bv8, c: bv8)
    requires SubByte(b) == SubByte(c)
    ensures b == c
  {
    hide SubByte, InvSubByte;
    SubByteInverse(b);
    SubByteInverse(c);
  }

  /** Every entry is reached, because the S-box is onto. */
  lemma InvSBoxComplete(rsb: seq<bv8>)
    requires InvSBoxUpTo(rsb, 256)
    ensures InvSBoxTable(rsb)
  {
    hide SubByte, InvSubByte;
    forall b: bv8 ensures rsb[b as int] == InvSubByte(b) {
      SubByteInverse(b);
      assert SubByte(InvSubByte(b)) == b;
    }
  }

  lemma SBoxLookup(fsb: seq<bv8>, i: nat)
    requires i < 256 && SBoxTable(fsb)
    ensures fsb[i] == SubByte(ByteOf(i))
  {
    hide SubByte;
    ghost var b := ByteOf(i);
  }

  lemma InvSBoxLookup(rsb: seq<bv8>, i: nat)
    requires i < 256 && InvSBoxTable(rsb)
    ensures rsb[i] == InvSubByte(ByteOf(i))
  {
    hide InvSubByte;
    ghost var b := ByteOf(i);
  }
}
