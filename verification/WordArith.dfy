/** 32-bit words with wrap-around arithmetic, and the two ways of writing a word as bytes. */
module WordArith {
  import opened Basics

  newtype word = x: int | 0 <= x < 0x1_0000_0000

  function Plus(a: word, b: word): word {
    ((a as int + b as int) % 0x1_0000_0000) as word
  }

  lemma PlusIs(a: word, b: word)
    ensures Plus(a, b) as int ==
      if a as int + b as int < 0x1_0000_0000 then a as int + b as int else a as int + b as int - 0x1_0000_0000
  {
  }

  lemma PlusComm(a: word, b: word)
    ensures Plus(a, b) == Plus(b, a)
  {
  }

  lemma PlusAssoc(a: word, b: word, c: word)
    ensures Plus(Plus(a, b), c) == Plus(a, Plus(b, c))
  {
    hide Plus;
    PlusIs(a, b);
    PlusIs(b, c);
    PlusIs(Plus(a, b), c);
    PlusIs(a, Plus(b, c));
  }

  // --- bitwise operators, through 32-bit vectors ---

  function Bits(w: word): bv32 { w as bv32 }

  function Value(b: bv32): word { b as word }

  function AndBits(a: bv32, b: bv32): bv32 { a & b }

  function OrBits(a: bv32, b: bv32): bv32 { a | b }

  function XorBits(a: bv32, b: bv32): bv32 { a ^ b }

  function NotBits(a: bv32): bv32 { !a }

  function And(a: word, b: word): word { Value(AndBits(Bits(a), Bits(b))) }

  function Or(a: word, b: word): word { Value(OrBits(Bits(a), Bits(b))) }

  function Xor(a: word, b: word): word { Value(XorBits(Bits(a), Bits(b))) }

  function Not(a: word): word { Value(NotBits(Bits(a))) }

  lemma BitsOfValue(b: bv32)
    ensures Bits(Value(b)) == b
  {
  }

  function RotlBits(a: bv32, n: nat): bv32
    requires 0 < n < 32
  {
    (a << n) | (a >> (32 - n))
  }

  /** Circular left shift, as both hash sources write it. */
  function Rotl(x: word, n: nat): word
    requires 0 < n < 32
  {
    Value(RotlBits(Bits(x), n))
  }

  /** The value of four bytes, least significant first. */
  function LittleWord(b: Bytes): word
    requires |b| == 4
  {
    (b[0] as int + 0x100 * b[1] as int + 0x1_0000 * b[2] as int + 0x100_0000 * b[3] as int) as word
  }

  function LittleBytes(w: word): (b: Bytes)
    ensures |b| == 4
  {
    [(w as int % 256) as byte, (w as int / 0x100 % 256) as byte, (w as int / 0x1_0000 % 256) as byte,
     (w as int / 0x100_0000) as byte]
  }

  /** The value of four bytes, most significant first. */
  function BigWord(b: Bytes): word
    requires |b| == 4
  {
    (0x100_0000 * b[0] as int + 0x1_0000 * b[1] as int + 0x100 * b[2] as int + b[3] as int) as word
  }

  function BigBytes(w: word): (b: Bytes)
    ensures |b| == 4
  {
    [(w as int / 0x100_0000) as byte, (w as int / 0x1_0000 % 256) as byte, (w as int / 0x100 % 256) as byte,
     (w as int % 256) as byte]
  }

  lemma WordOfBytes(w: word)
    ensures LittleWord(LittleBytes(w)) == w && BigWord(BigBytes(w)) == w
  {
    FourDigits(w as int);
  }

  /** The four digits of a number to the base 256. */
  lemma FourDigits(n: nat)
    ensures n == n % 0x100 + 0x100 * (n / 0x100 % 0x100) + 0x1_0000 * (n / 0x1_0000 % 0x100) + 0x100_0000 * (n / 0x100_0000)
  {
    LastDigit(n, 0x100);
    LastDigit(n, 0x1_0000);
  }

  /** A number put together from a word and what is above it. */
  lemma WideSplit(high: nat, low: nat)
    requires low < 0x1_0000_0000
    ensures (0x1_0000_0000 * high + low) / 0x1_0000_0000 == high && (0x1_0000_0000 * high + low) % 0x1_0000_0000 == low
  {
  }

  /** What a shift by three places keeps, and what it moves out. */
  lemma ShiftedOut(w: word)
    ensures 8 * w as int == 0x1_0000_0000 * (w / 0x2000_0000) as int + 8 * w as int % 0x1_0000_0000
    ensures w / 0x2000_0000 < 8
  {
    var high, low := w as int / 0x2000_0000, w as int % 0x2000_0000;
    WideSplit(high, 8 * low);
    assert 8 * w as int == 0x1_0000_0000 * high + 8 * low;
  }

  lemma LastDigit(n: nat, unit: nat)
    requires unit == 0x100 || unit == 0x1_0000
    ensures n / unit == n / unit % 0x100 + 0x100 * (n / (0x100 * unit))
  {
  }
}
