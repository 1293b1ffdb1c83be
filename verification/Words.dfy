/** The packing of four bytes into a 32-bit word, least significant byte first
    (`GET_UINT32_LE`, `PUT_UINT32_LE` and `ROTL8` in the source). */
module Words {
  import opened Rijndael

  function Pack(c: Column): bv32 {
    (c.b0 as bv32) | ((c.b1 as bv32) << 8) | ((c.b2 as bv32) << 16) | ((c.b3 as bv32) << 24)
  }

  function Byte0(w: bv32): bv8 { (w & 0xFF) as bv8 }

  function Byte1(w: bv32): bv8 { ((w >> 8) & 0xFF) as bv8 }

  function Byte2(w: bv32): bv8 { ((w >> 16) & 0xFF) as bv8 }

  function Byte3(w: bv32): bv8 { ((w >> 24) & 0xFF) as bv8 }

  function Unpack(w: bv32): Column {
    Column(Byte0(w), Byte1(w), Byte2(w), Byte3(w))
  }

  function Rotl8(w: bv32): bv32 {
    (w << 8) | (w >> 24)
  }

  lemma UnpackPack(c: Column)
    ensures Unpack(Pack(c)) == c
  {
  }

  lemma PackUnpack(w: bv32)
    ensures Pack(Unpack(w)) == w
  {
  }

  function Xor(a: bv32, b: bv32): bv32 {
    a ^ b
  }

  lemma PackAdd(c: Column, d: Column)
    ensures Xor(Pack(c), Pack(d)) == Pack(AddColumn(c, d))
  {
  }

  lemma PackRotate(c: Column)
    ensures Rotl8(Pack(c)) == Pack(RotateDown(c))
  {
  }

  /** The form in which the source assembles table entries and substituted words. */
  function XorWord(b0: bv8, b1: bv8, b2: bv8, b3: bv8): bv32 {
    Xor(Xor(Xor(b0 as bv32, (b1 as bv32) << 8), (b2 as bv32) << 16), (b3 as bv32) << 24)
  }

  lemma PackXor(b0: bv8, b1: bv8, b2: bv8, b3: bv8)
    ensures XorWord(b0, b1, b2, b3) == Pack(Column(b0, b1, b2, b3))
  {
    DisjointBytes(b0, b1, b2, b3);
    hide Pack;
    assert XorWord(b0, b1, b2, b3)
      == (b0 as bv32) ^ ((b1 as bv32) << 8) ^ ((b2 as bv32) << 16) ^ ((b3 as bv32) << 24);
  }

  lemma DisjointBytes(b0: bv8, b1: bv8, b2: bv8, b3: bv8)
    ensures (b0 as bv32) ^ ((b1 as bv32) << 8) ^ ((b2 as bv32) << 16) ^ ((b3 as bv32) << 24)
         == Pack(Column(b0, b1, b2, b3))
  {
  }
}
