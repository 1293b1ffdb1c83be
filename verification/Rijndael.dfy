/** The specification of AES, over bytes and columns and without tables: the Cipher of FIPS 197,
    section 5.1, the key expansion of section 5.2, the InvCipher of section 5.3 and the equivalent
    inverse cipher of section 5.3.5, with the proofs that the inverse ciphers undo the Cipher. */
module Rijndael {
  import opened GaloisField

  /** A column of the state, or a word of the key schedule. */
  datatype Column = Column(b0: bv8, b1: bv8, b2: bv8, b3: bv8)

  /** The state, or a round key. */
  datatype State = State(c0: Column, c1: Column, c2: Column, c3: Column)

  // --- the substitution box ---

  /** The affine transformation of FIPS 197, equation 5.2. */
  function Affine(x: bv8): bv8 {
    x ^ x.RotateLeft(1) ^ x.RotateLeft(2) ^ x.RotateLeft(3) ^ x.RotateLeft(4) ^ 0x63
  }

  function InvAffine(y: bv8): bv8 {
    y.RotateLeft(1) ^ y.RotateLeft(3) ^ y.RotateLeft(6) ^ 0x05
  }

  ghost function SubByte(x: bv8): bv8 {
    Affine(Inverse(x))
  }

  ghost function InvSubByte(y: bv8): bv8 {
    Inverse(InvAffine(y))
  }

  lemma AffineInverse(x: bv8)
    ensures InvAffine(Affine(x)) == x && Affine(InvAffine(x)) == x
  {
  }

  lemma SubByteInverse(x: bv8)
    ensures InvSubByte(SubByte(x)) == x && SubByte(InvSubByte(x)) == x
  {
    hide Affine, InvAffine, Inverse;
    AffineInverse(Inverse(x));
    AffineInverse(x);
    InverseInvolution(x);
    InverseInvolution(InvAffine(x));
  }

  // --- the four transformations and their inverses ---

  ghost function SubColumn(c: Column): Column {
    Column(SubByte(c.b0), SubByte(c.b1), SubByte(c.b2), SubByte(c.b3))
  }

  ghost function InvSubColumn(c: Column): Column {
    Column(InvSubByte(c.b0), InvSubByte(c.b1), InvSubByte(c.b2), InvSubByte(c.b3))
  }

  ghost function SubBytes(s: State): State {
    State(SubColumn(s.c0), SubColumn(s.c1), SubColumn(s.c2), SubColumn(s.c3))
  }

  ghost function InvSubBytes(s: State): State {
    State(InvSubColumn(s.c0), InvSubColumn(s.c1), InvSubColumn(s.c2), InvSubColumn(s.c3))
  }

  /** Row r of the state moves r columns to the left. */
  function ShiftRows(s: State): State {
    State(
      Column(s.c0.b0, s.c1.b1, s.c2.b2, s.c3.b3),
      Column(s.c1.b0, s.c2.b1, s.c3.b2, s.c0.b3),
      Column(s.c2.b0, s.c3.b1, s.c0.b2, s.c1.b3),
      Column(s.c3.b0, s.c0.b1, s.c1.b2, s.c2.b3))
  }

  function InvShiftRows(s: State): State {
    State(
      Column(s.c0.b0, s.c3.b1, s.c2.b2, s.c1.b3),
      Column(s.c1.b0, s.c0.b1, s.c3.b2, s.c2.b3),
      Column(s.c2.b0, s.c1.b1, s.c0.b2, s.c3.b3),
      Column(s.c3.b0, s.c2.b1, s.c1.b2, s.c0.b3))
  }

  function Add4(a: bv8, b: bv8, c: bv8, d: bv8): bv8 {
    Add(Add(a, b), Add(c, d))
  }

  /** One row of a matrix times a column. */
  function Dot(k0: bv8, k1: bv8, k2: bv8, k3: bv8, c: Column): bv8 {
    Add4(Mul(k0, c.b0), Mul(k1, c.b1), Mul(k2, c.b2), Mul(k3, c.b3))
  }

  /** FIPS 197, equation 5.6. */
  function MixColumn(c: Column): Column {
    Column(
      Dot(0x02, 0x03, 0x01, 0x01, c),
      Dot(0x01, 0x02, 0x03, 0x01, c),
      Dot(0x01, 0x01, 0x02, 0x03, c),
      Dot(0x03, 0x01, 0x01, 0x02, c))
  }

  /** FIPS 197, equation 5.10. */
  function InvMixColumn(c: Column): Column {
    Column(
      Dot(0x0E, 0x0B, 0x0D, 0x09, c),
      Dot(0x09, 0x0E, 0x0B, 0x0D, c),
      Dot(0x0D, 0x09, 0x0E, 0x0B, c),
      Dot(0x0B, 0x0D, 0x09, 0x0E, c))
  }

  function MixColumns(s: State): State {
    State(MixColumn(s.c0), MixColumn(s.c1), MixColumn(s.c2), MixColumn(s.c3))
  }

  function InvMixColumns(s: State): State {
    State(InvMixColumn(s.c0), InvMixColumn(s.c1), InvMixColumn(s.c2), InvMixColumn(s.c3))
  }

  function AddColumn(a: Column, b: Column): Column {
    Column(Add(a.b0, b.b0), Add(a.b1, b.b1), Add(a.b2, b.b2), Add(a.b3, b.b3))
  }

  function AddRoundKey(s: State, k: State): State {
    State(AddColumn(s.c0, k.c0), AddColumn(s.c1, k.c1), AddColumn(s.c2, k.c2), AddColumn(s.c3, k.c3))
  }

  // --- InvMixColumn is linear and inverts MixColumn ---

  lemma MulAdd(k: bv8, a: bv8, b: bv8)
    ensures Mul(k, Add(a, b)) == Add(Mul(k, a), Mul(k, b))
  {
    hide Add, PartialProduct;
    MulComm(k, a);
    MulComm(k, b);
    MulComm(k, Add(a, b));
    PartialProductAdd(a, b, k, 8);
  }

  lemma MulAddLeft(k: bv8, k': bv8, a: bv8)
    ensures Mul(Add(k, k'), a) == Add(Mul(k, a), Mul(k', a))
  {
    hide Add, PartialProduct;
    PartialProductAdd(k, k', a, 8);
  }

  lemma Add4Add(a: bv8, b: bv8, c: bv8, d: bv8, a': bv8, b': bv8, c': bv8, d': bv8)
    ensures Add4(Add(a, a'), Add(b, b'), Add(c, c'), Add(d, d')) == Add(Add4(a, b, c, d), Add4(a', b', c', d'))
  {
    hide Add;
    AddInterchange(a, a', b, b');
    AddInterchange(c, c', d, d');
    AddInterchange(Add(a, b), Add(a', b'), Add(c, d), Add(c', d'));
  }

  lemma DotAdd(k0: bv8, k1: bv8, k2: bv8, k3: bv8, c: Column, d: Column)
    ensures Dot(k0, k1, k2, k3, AddColumn(c, d)) == Add(Dot(k0, k1, k2, k3, c), Dot(k0, k1, k2, k3, d))
  {
    hide Add, Mul, Add4;
    MulAdd(k0, c.b0, d.b0);
    MulAdd(k1, c.b1, d.b1);
    MulAdd(k2, c.b2, d.b2);
    MulAdd(k3, c.b3, d.b3);
    Add4Add(Mul(k0, c.b0), Mul(k1, c.b1), Mul(k2, c.b2), Mul(k3, c.b3),
      Mul(k0, d.b0), Mul(k1, d.b1), Mul(k2, d.b2), Mul(k3, d.b3));
  }

  lemma MixColumnAdd(c: Column, d: Column)
    ensures MixColumn(AddColumn(c, d)) == AddColumn(MixColumn(c), MixColumn(d))
  {
    hide Add, Dot;
    DotAdd(0x02, 0x03, 0x01, 0x01, c, d);
    DotAdd(0x01, 0x02, 0x03, 0x01, c, d);
    DotAdd(0x01, 0x01, 0x02, 0x03, c, d);
    DotAdd(0x03, 0x01, 0x01, 0x02, c, d);
  }

  lemma InvMixColumnAdd(c: Column, d: Column)
    ensures InvMixColumn(AddColumn(c, d)) == AddColumn(InvMixColumn(c), InvMixColumn(d))
  {
    hide Add, Dot;
    DotAdd(0x0E, 0x0B, 0x0D, 0x09, c, d);
    DotAdd(0x09, 0x0E, 0x0B, 0x0D, c, d);
    DotAdd(0x0D, 0x09, 0x0E, 0x0B, c, d);
    DotAdd(0x0B, 0x0D, 0x09, 0x0E, c, d);
  }

  /** A row times the multiples of one byte is a multiple of that byte: the product of the two
      matrices can be taken on the coefficients. */
  lemma DotMultiples(k0: bv8, k1: bv8, k2: bv8, k3: bv8, m0: bv8, m1: bv8, m2: bv8, m3: bv8, x: bv8)
    ensures Dot(k0, k1, k2, k3, Column(Mul(m0, x), Mul(m1, x), Mul(m2, x), Mul(m3, x)))
         == Mul(Dot(k0, k1, k2, k3, Column(m0, m1, m2, m3)), x)
  {
    hide Add, Mul;
    MulAssoc(k0, m0, x);
    MulAssoc(k1, m1, x);
    MulAssoc(k2, m2, x);
    MulAssoc(k3, m3, x);
    var p0, p1, p2, p3 := Mul(k0, m0), Mul(k1, m1), Mul(k2, m2), Mul(k3, m3);
    MulAddLeft(p0, p1, x);
    MulAddLeft(p2, p3, x);
    MulAddLeft(Add(p0, p1), Add(p2, p3), x);
  }

  /** MixColumn of a column with one non-zero byte, in row 0. */
  lemma MixColumnRow0(x: bv8)
    ensures MixColumn(Column(x, 0, 0, 0)) == Column(Mul(2, x), Mul(1, x), Mul(1, x), Mul(3, x))
  {
    hide Add, Mul;
    SparseDots(x);
  }

  lemma SparseDots(x: bv8)
    ensures forall k0, k1, k2, k3 ::
      && Dot(k0, k1, k2, k3, Column(x, 0, 0, 0)) == Mul(k0, x)
      && Dot(k0, k1, k2, k3, Column(0, x, 0, 0)) == Mul(k1, x)
      && Dot(k0, k1, k2, k3, Column(0, 0, x, 0)) == Mul(k2, x)
      && Dot(k0, k1, k2, k3, Column(0, 0, 0, x)) == Mul(k3, x)
  {
    hide Add, Mul;
    forall k0, k1, k2, k3
      ensures
      && Dot(k0, k1, k2, k3, Column(x, 0, 0, 0)) == Mul(k0, x)
      && Dot(k0, k1, k2, k3, Column(0, x, 0, 0)) == Mul(k1, x)
      && Dot(k0, k1, k2, k3, Column(0, 0, x, 0)) == Mul(k2, x)
      && Dot(k0, k1, k2, k3, Column(0, 0, 0, x)) == Mul(k3, x)
    {
      MulZero(k0);
      MulZero(k1);
      MulZero(k2);
      MulZero(k3);
      AddSelf(0, 0);
      AddSelf(Mul(k0, x), 0);
      AddSelf(Mul(k1, x), 0);
      AddSelf(Mul(k2, x), 0);
      AddSelf(Mul(k3, x), 0);
    }
  }

  lemma InvMixColumnRow0(x: bv8)
    ensures InvMixColumn(MixColumn(Column(x, 0, 0, 0))) == Column(x, 0, 0, 0)
  {
    MatrixProduct();
    hide Add, Mul, Dot;
    SparseDots(x);
    DotMultiples(0x0E, 0x0B, 0x0D, 0x09, 2, 1, 1, 3, x);
    DotMultiples(0x09, 0x0E, 0x0B, 0x0D, 2, 1, 1, 3, x);
    DotMultiples(0x0D, 0x09, 0x0E, 0x0B, 2, 1, 1, 3, x);
    DotMultiples(0x0B, 0x0D, 0x09, 0x0E, 2, 1, 1, 3, x);
    MulOne(x);
    MulZero(x);
  }

  lemma CoefficientProducts()
    ensures Mul(0x0E, 1) == 0x0E && Mul(0x0E, 2) == 0x1C && Mul(0x0E, 3) == 0x12
    ensures Mul(0x0B, 1) == 0x0B && Mul(0x0B, 2) == 0x16 && Mul(0x0B, 3) == 0x1D
    ensures Mul(0x0D, 1) == 0x0D && Mul(0x0D, 2) == 0x1A && Mul(0x0D, 3) == 0x17
    ensures Mul(0x09, 1) == 0x09 && Mul(0x09, 2) == 0x12 && Mul(0x09, 3) == 0x1B
  {
  }

  /** The first column of the product of the two matrices. */
  lemma MatrixProduct()
    ensures Dot(0x0E, 0x0B, 0x0D, 0x09, Column(2, 1, 1, 3)) == 1
    ensures Dot(0x09, 0x0E, 0x0B, 0x0D, Column(2, 1, 1, 3)) == 0
    ensures Dot(0x0D, 0x09, 0x0E, 0x0B, Column(2, 1, 1, 3)) == 0
    ensures Dot(0x0B, 0x0D, 0x09, 0x0E, Column(2, 1, 1, 3)) == 0
  {
    hide Mul;
    CoefficientProducts();
  }

  function RotateDown(c: Column): Column {
    Column(c.b3, c.b0, c.b1, c.b2)
  }

  lemma DotRotate(k0: bv8, k1: bv8, k2: bv8, k3: bv8, c: Column)
    ensures Dot(k3, k0, k1, k2, RotateDown(c)) == Dot(k0, k1, k2, k3, c)
  {
    hide Add, Mul;
    var p0, p1, p2, p3 := Mul(k0, c.b0), Mul(k1, c.b1), Mul(k2, c.b2), Mul(k3, c.b3);
    AddAssoc(p3, p0, Add(p1, p2));
    AddAssoc(p0, p1, p2);
    AddAssoc(Add(p0, p1), p2, p3);
    AddComm(p3, Add(Add(p0, p1), p2));
  }

  /** The matrices are circulant. */
  lemma MixRotate(c: Column)
    ensures MixColumn(RotateDown(c)) == RotateDown(MixColumn(c))
    ensures InvMixColumn(RotateDown(c)) == RotateDown(InvMixColumn(c))
  {
    hide Dot;
    DotRotate(0x02, 0x03, 0x01, 0x01, c);
    DotRotate(0x01, 0x02, 0x03, 0x01, c);
    DotRotate(0x01, 0x01, 0x02, 0x03, c);
    DotRotate(0x03, 0x01, 0x01, 0x02, c);
    DotRotate(0x0E, 0x0B, 0x0D, 0x09, c);
    DotRotate(0x09, 0x0E, 0x0B, 0x0D, c);
    DotRotate(0x0D, 0x09, 0x0E, 0x0B, c);
    DotRotate(0x0B, 0x0D, 0x09, 0x0E, c);
  }

  lemma InvMixMixRotate(c: Column)
    requires InvMixColumn(MixColumn(c)) == c
    ensures InvMixColumn(MixColumn(RotateDown(c))) == RotateDown(c)
  {
    hide MixColumn, InvMixColumn;
    MixRotate(c);
    MixRotate(MixColumn(c));
  }

  lemma InvMixMixAdd(c: Column, d: Column)
    requires InvMixColumn(MixColumn(c)) == c && InvMixColumn(MixColumn(d)) == d
    ensures InvMixColumn(MixColumn(AddColumn(c, d))) == AddColumn(c, d)
  {
    hide MixColumn, InvMixColumn, AddColumn;
    MixColumnAdd(c, d);
    InvMixColumnAdd(MixColumn(c), MixColumn(d));
  }

  lemma InvMixColumnInverts(c: Column)
    ensures InvMixColumn(MixColumn(c)) == c
  {
    hide MixColumn, InvMixColumn, Add;
    var e0 := Column(c.b0, 0, 0, 0);
    var e1 := Column(0, c.b1, 0, 0);
    var e2 := Column(0, 0, c.b2, 0);
    var e3 := Column(0, 0, 0, c.b3);
    InvMixColumnRow0(c.b0);
    InvMixColumnRow0(c.b1);
    InvMixColumnRow0(c.b2);
    InvMixColumnRow0(c.b3);
    InvMixMixRotate(Column(c.b1, 0, 0, 0));
    InvMixMixRotate(Column(c.b2, 0, 0, 0));
    InvMixMixRotate(Column(0, c.b2, 0, 0));
    InvMixMixRotate(Column(c.b3, 0, 0, 0));
    InvMixMixRotate(Column(0, c.b3, 0, 0));
    InvMixMixRotate(Column(0, 0, c.b3, 0));
    InvMixMixAdd(e0, e1);
    InvMixMixAdd(e2, e3);
    InvMixMixAdd(AddColumn(e0, e1), AddColumn(e2, e3));
    AddSelf(0, 0);
    AddSelf(c.b0, 0);
    AddSelf(c.b1, 0);
    AddSelf(c.b2, 0);
    AddSelf(c.b3, 0);
    assert AddColumn(AddColumn(e0, e1), AddColumn(e2, e3)) == c;
  }

  // --- the ciphers, over a list of round keys ---

  /** The state after the initial key addition and r full rounds (FIPS 197, section 5.1). */
  ghost function Rounds(keys: seq<State>, r: nat, s: State): State
    requires r < |keys|
  {
    if r == 0 then AddRoundKey(s, keys[0])
    else AddRoundKey(MixColumns(ShiftRows(SubBytes(Rounds(keys, r - 1, s)))), keys[r])
  }

  ghost function Cipher(keys: seq<State>, s: State): State
    requires |keys| >= 2
  {
    AddRoundKey(ShiftRows(SubBytes(Rounds(keys, |keys| - 2, s))), keys[|keys| - 1])
  }

  /** The InvCipher of FIPS 197, section 5.3, after the initial key addition and r full rounds. */
  ghost function InvRounds(keys: seq<State>, r: nat, s: State): State
    requires r < |keys|
  {
    var n := |keys| - 1;
    if r == 0 then AddRoundKey(s, keys[n])
    else InvMixColumns(AddRoundKey(InvSubBytes(InvShiftRows(InvRounds(keys, r - 1, s))), keys[n - r]))
  }

  ghost function InvCipher(keys: seq<State>, s: State): State
    requires |keys| >= 2
  {
    AddRoundKey(InvSubBytes(InvShiftRows(InvRounds(keys, |keys| - 2, s))), keys[0])
  }

  /** The equivalent inverse cipher of FIPS 197, section 5.3.5, over its own list of round keys,
      in the order of use. */
  ghost function EqInvRounds(keys: seq<State>, r: nat, s: State): State
    requires r < |keys|
  {
    if r == 0 then AddRoundKey(s, keys[0])
    else AddRoundKey(InvMixColumns(InvShiftRows(InvSubBytes(EqInvRounds(keys, r - 1, s)))), keys[r])
  }

  ghost function EqInvCipher(keys: seq<State>, s: State): State
    requires |keys| >= 2
  {
    AddRoundKey(InvShiftRows(InvSubBytes(EqInvRounds(keys, |keys| - 2, s))), keys[|keys| - 1])
  }

  /** The round keys of the equivalent inverse cipher: reversed, the inner ones through InvMixColumns. */
  function DecryptionKey(keys: seq<State>, r: nat): State
    requires r < |keys|
  {
    var n := |keys| - 1;
    if r == 0 || r == n then keys[n - r] else InvMixColumns(keys[n - r])
  }

  function DecryptionKeys(keys: seq<State>): seq<State> {
    seq(|keys|, r requires 0 <= r < |keys| => DecryptionKey(keys, r))
  }

  // --- decryption undoes encryption ---

  lemma AddRoundKeyTwice(s: State, k: State)
    ensures AddRoundKey(AddRoundKey(s, k), k) == s
  {
    hide Add;
    AddColumnTwice(s.c0, k.c0);
    AddColumnTwice(s.c1, k.c1);
    AddColumnTwice(s.c2, k.c2);
    AddColumnTwice(s.c3, k.c3);
  }

  lemma AddColumnTwice(c: Column, k: Column)
    ensures AddColumn(AddColumn(c, k), k) == c
  {
    hide Add;
    AddSelf(c.b0, k.b0);
    AddSelf(c.b1, k.b1);
    AddSelf(c.b2, k.b2);
    AddSelf(c.b3, k.b3);
  }

  lemma InvMixColumnsInverts(s: State)
    ensures InvMixColumns(MixColumns(s)) == s
  {
    hide MixColumn, InvMixColumn;
    InvMixColumnInverts(s.c0);
    InvMixColumnInverts(s.c1);
    InvMixColumnInverts(s.c2);
    InvMixColumnInverts(s.c3);
  }

  lemma InvMixColumnsAdd(s: State, k: State)
    ensures InvMixColumns(AddRoundKey(s, k)) == AddRoundKey(InvMixColumns(s), InvMixColumns(k))
  {
    hide AddColumn, InvMixColumn;
    InvMixColumnAdd(s.c0, k.c0);
    InvMixColumnAdd(s.c1, k.c1);
    InvMixColumnAdd(s.c2, k.c2);
    InvMixColumnAdd(s.c3, k.c3);
  }

  lemma InvSubColumnInverts(c: Column)
    ensures InvSubColumn(SubColumn(c)) == c
  {
    hide SubByte, InvSubByte;
    SubByteInverse(c.b0);
    SubByteInverse(c.b1);
    SubByteInverse(c.b2);
    SubByteInverse(c.b3);
  }

  lemma InvSubBytesInverts(s: State)
    ensures InvSubBytes(SubBytes(s)) == s
  {
    hide SubColumn, InvSubColumn;
    InvSubColumnInverts(s.c0);
    InvSubColumnInverts(s.c1);
    InvSubColumnInverts(s.c2);
    InvSubColumnInverts(s.c3);
  }

  /** ShiftRows only moves bytes, so it commutes with the substitution. */
  lemma InvShiftRowsInverts(s: State)
    ensures InvShiftRows(ShiftRows(s)) == s
    ensures InvShiftRows(InvSubBytes(s)) == InvSubBytes(InvShiftRows(s))
  {
    hide InvSubByte;
  }

  /** After r rounds the equivalent inverse cipher has undone all but the first
      |keys| - 2 - r rounds and half of the next. */
  lemma {:induction false} EqInvRoundsUndo(keys: seq<State>, r: nat, s: State)
    requires r + 2 <= |keys|
    ensures EqInvRounds(DecryptionKeys(keys), r, Cipher(keys, s))
         == ShiftRows(SubBytes(Rounds(keys, |keys| - 2 - r, s)))
  {
    hide ShiftRows, InvShiftRows, SubBytes, InvSubBytes, MixColumns, InvMixColumns, AddRoundKey;
    var n := |keys| - 1;
    if r == 0 {
      AddRoundKeyTwice(ShiftRows(SubBytes(Rounds(keys, n - 1, s))), keys[n]);
    } else {
      EqInvRoundsUndo(keys, r - 1, s);
      var t := Rounds(keys, n - r, s);
      InvSubBytesInverts(t);
      InvShiftRowsInverts(SubBytes(t));
      InvShiftRowsInverts(ShiftRows(SubBytes(t)));
      var u := ShiftRows(SubBytes(Rounds(keys, n - r - 1, s)));
      InvMixColumnsAdd(MixColumns(u), keys[n - r]);
      InvMixColumnsInverts(u);
      AddRoundKeyTwice(u, InvMixColumns(keys[n - r]));
    }
  }

  /** For every key schedule of any length, the equivalent inverse cipher with the transformed
      schedule undoes the Cipher. */
  lemma EqInvCipherInverts(keys: seq<State>, s: State)
    requires |keys| >= 2
    ensures EqInvCipher(DecryptionKeys(keys), Cipher(keys, s)) == s
  {
    hide ShiftRows, InvShiftRows, SubBytes, InvSubBytes, AddRoundKey, Cipher, EqInvRounds, MixColumns, InvMixColumns;
    EqInvRoundsUndo(keys, |keys| - 2, s);
    var t := Rounds(keys, 0, s);
    InvSubBytesInverts(t);
    InvShiftRowsInverts(SubBytes(t));
    InvShiftRowsInverts(ShiftRows(SubBytes(t)));
    AddRoundKeyTwice(s, keys[0]);
  }

  lemma {:induction false} EqInvRoundsAgree(keys: seq<State>, r: nat, s: State)
    requires r + 2 <= |keys|
    ensures EqInvRounds(DecryptionKeys(keys), r, s) == InvRounds(keys, r, s)
  {
    hide ShiftRows, InvShiftRows, SubBytes, InvSubBytes, MixColumns, InvMixColumns, AddRoundKey;
    if r > 0 {
      EqInvRoundsAgree(keys, r - 1, s);
      var t := InvRounds(keys, r - 1, s);
      InvShiftRowsInverts(t);
      InvMixColumnsAdd(InvSubBytes(InvShiftRows(t)), keys[|keys| - 1 - r]);
    }
  }

  /** The two forms of the inverse cipher are the same function, on every state. */
  lemma EqInvCipherIsInvCipher(keys: seq<State>, s: State)
    requires |keys| >= 2
    ensures EqInvCipher(DecryptionKeys(keys), s) == InvCipher(keys, s)
  {
    hide ShiftRows, InvShiftRows, SubBytes, InvSubBytes, AddRoundKey;
    EqInvRoundsAgree(keys, |keys| - 2, s);
    InvShiftRowsInverts(InvRounds(keys, |keys| - 2, s));
  }

  // --- key expansion (FIPS 197, section 5.2) ---

  function RotWord(w: Column): Column {
    Column(w.b1, w.b2, w.b3, w.b0)
  }

  function PowerOfX(n: nat): bv8 {
    if n == 0 then 1 else Xtime(PowerOfX(n - 1))
  }

  function Rcon(j: nat): Column
    requires j >= 1
  {
    Column(PowerOfX(j - 1), 0, 0, 0)
  }

  ghost predicate KeyLength(nk: nat) {
    nk == 4 || nk == 6 || nk == 8
  }

  /** Word i of the expansion of a key of 4, 6 or 8 words. */
  ghost function KeyWord(key: seq<Column>, i: nat): Column
    requires KeyLength(|key|)
  {
    var nk := |key|;
    if i < nk then key[i]
    else
      var temp := KeyWord(key, i - 1);
      AddColumn(KeyWord(key, i - nk),
        if i % nk == 0 then AddColumn(SubColumn(RotWord(temp)), Rcon(i / nk))
        else if nk > 6 && i % nk == 4 then SubColumn(temp)
        else temp)
  }

  ghost function RoundKey(key: seq<Column>, r: nat): State
    requires KeyLength(|key|)
  {
    State(KeyWord(key, 4 * r), KeyWord(key, 4 * r + 1), KeyWord(key, 4 * r + 2), KeyWord(key, 4 * r + 3))
  }

  /** The nk + 7 round keys. */
  ghost function KeyExpansion(key: seq<Column>): (keys: seq<State>)
    requires KeyLength(|key|)
    ensures |keys| == |key| + 7
  {
    seq(|key| + 7, r requires 0 <= r => RoundKey(key, r))
  }
}
