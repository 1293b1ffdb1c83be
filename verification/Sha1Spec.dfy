/** The SHA-1 message digest as FIPS 180-4 defines it. */
module Sha1Spec {
  import opened Basics
  import opened WordArith
  import opened BlockChain

  datatype Regs = Regs(a: word, b: word, c: word, d: word, e: word)

  // --- sections 4.1.1 and 4.2.1 of FIPS 180-4 ---

  function Ch(x: word, y: word, z: word): word { Xor(And(x, y), And(Not(x), z)) }

  function Parity(x: word, y: word, z: word): word { Xor(Xor(x, y), z) }

  function Maj(x: word, y: word, z: word): word { Xor(Xor(And(x, y), And(x, z)), And(y, z)) }

  function RoundFunction(t: nat, x: word, y: word, z: word): word {
    if t < 20 then Ch(x, y, z) else if t < 40 then Parity(x, y, z) else if t < 60 then Maj(x, y, z) else Parity(x, y, z)
  }

  function K(t: nat): word {
    if t < 20 then 0x5A827999 else if t < 40 then 0x6ED9EBA1 else if t < 60 then 0x8F1BBCDC else 0xCA62C1D6
  }

  // --- section 6.1.2 of FIPS 180-4 ---

  /** The message schedule of 80 words. */
  function W(x: seq<word>, t: nat): word
    requires |x| == 16
  {
    if t < 16 then x[t] else Rotl(Xor(Xor(Xor(W(x, t - 3), W(x, t - 8)), W(x, t - 14)), W(x, t - 16)), 1)
  }

  function Step(t: nat, r: Regs, x: seq<word>): Regs
    requires |x| == 16
  {
    var sum := Plus(Plus(Plus(Plus(Rotl(r.a, 5), RoundFunction(t, r.b, r.c, r.d)), r.e), K(t)), W(x, t));
    Regs(sum, r.a, Rotl(r.b, 30), r.c, r.d)
  }

  function Steps(n: nat, r: Regs, x: seq<word>): Regs
    requires |x| == 16
  {
    if n == 0 then r else Step(n - 1, Steps(n - 1, r, x), x)
  }

  function AddRegs(r: Regs, s: Regs): Regs {
    Regs(Plus(r.a, s.a), Plus(r.b, s.b), Plus(r.c, s.c), Plus(r.d, s.d), Plus(r.e, s.e))
  }

  function WordsOfBlock(block: Bytes): (x: seq<word>)
    requires |block| == 64
    ensures |x| == 16
  {
    seq(16, i requires 0 <= i < 16 => BigWord(block[4 * i..4 * i + 4]))
  }

  function CompressBlock(r: Regs, block: Bytes): Regs
    requires |block| == 64
  {
    AddRegs(r, Steps(80, r, WordsOfBlock(block)))
  }

  function Compress(r: Regs, block: Bytes): Regs {
    if |block| == 64 then CompressBlock(r, block) else r
  }

  const IV := Regs(0x67452301, 0xEFCDAB89, 0x98BADCFE, 0x10325476, 0xC3D2E1F0)

  /** Section 5.1.1: the length in bits as a 64-bit number, high-order word first. */
  function LengthField(n: nat): (b: Bytes)
    requires n < 0x2000_0000_0000_0000
    ensures |b| == 8
  {
    BigBytes((8 * n / 0x1_0000_0000) as word) + BigBytes((8 * n % 0x1_0000_0000) as word)
  }

  function RegsBytes(r: Regs): (b: Bytes)
    ensures |b| == 20
  {
    BigBytes(r.a) + BigBytes(r.b) + BigBytes(r.c) + BigBytes(r.d) + BigBytes(r.e)
  }

  /** The result of padding m with a given length field and hashing all its blocks. */
  ghost function DigestWith(m: Bytes, lengthField: Bytes): (d: Bytes)
    requires |lengthField| == 8
    ensures |d| == 20
  {
    RegsBytes(Chain(Compress, IV, Padded(m, lengthField)))
  }

  /** The SHA-1 digest of a message of fewer than 2^64 bits. */
  ghost function Digest(m: Bytes): (d: Bytes)
    requires |m| < 0x2000_0000_0000_0000
    ensures |d| == 20
  {
    DigestWith(m, LengthField(|m|))
  }
}
