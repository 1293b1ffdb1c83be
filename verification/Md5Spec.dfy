/** The MD5 message digest as RFC 1321 defines it. */
module Md5Spec {
  import opened Basics
  import opened WordArith
  import opened BlockChain

  datatype Regs = Regs(a: word, b: word, c: word, d: word)

  // --- section 3.4 of RFC 1321 ---

  function F(x: word, y: word, z: word): word { Or(And(x, y), And(Not(x), z)) }

  function G(x: word, y: word, z: word): word { Or(And(x, z), And(y, Not(z))) }

  function H(x: word, y: word, z: word): word { Xor(Xor(x, y), z) }

  function I(x: word, y: word, z: word): word { Xor(y, Or(x, Not(z))) }

  function RoundFunction(i: nat, x: word, y: word, z: word): word {
    if i < 16 then F(x, y, z) else if i < 32 then G(x, y, z) else if i < 48 then H(x, y, z) else I(x, y, z)
  }

  /** The word of the block used in step i. */
  function WordIndex(i: nat): (k: nat)
    ensures k < 16
  {
    if i < 16 then i % 16 else if i < 32 then (5 * i + 1) % 16 else if i < 48 then (3 * i + 5) % 16 else 7 * i % 16
  }

  function Shift(i: nat): (s: nat)
    ensures 0 < s < 32
  {
    var k := i % 4;
    if i < 16 then (if k == 0 then 7 else if k == 1 then 12 else if k == 2 then 17 else 22)
    else if i < 32 then (if k == 0 then 5 else if k == 1 then 9 else if k == 2 then 14 else 20)
    else if i < 48 then (if k == 0 then 4 else if k == 1 then 11 else if k == 2 then 16 else 23)
    else (if k == 0 then 6 else if k == 1 then 10 else if k == 2 then 15 else 21)
  }

  /** The integer part of 4294967296 times abs(sin(i + 1)). */
  function T(i: nat): word
    requires i < 64
  {
    match i
    case 0 => 0xD76AA478
    case 1 => 0xE8C7B756
    case 2 => 0x242070DB
    case 3 => 0xC1BDCEEE
    case 4 => 0xF57C0FAF
    case 5 => 0x4787C62A
    case 6 => 0xA8304613
    case 7 => 0xFD469501
    case 8 => 0x698098D8
    case 9 => 0x8B44F7AF
    case 10 => 0xFFFF5BB1
    case 11 => 0x895CD7BE
    case 12 => 0x6B901122
    case 13 => 0xFD987193
    case 14 => 0xA679438E
    case 15 => 0x49B40821
    case 16 => 0xF61E2562
    case 17 => 0xC040B340
    case 18 => 0x265E5A51
    case 19 => 0xE9B6C7AA
    case 20 => 0xD62F105D
    case 21 => 0x02441453
    case 22 => 0xD8A1E681
    case 23 => 0xE7D3FBC8
    case 24 => 0x21E1CDE6
    case 25 => 0xC33707D6
    case 26 => 0xF4D50D87
    case 27 => 0x455A14ED
    case 28 => 0xA9E3E905
    case 29 => 0xFCEFA3F8
    case 30 => 0x676F02D9
    case 31 => 0x8D2A4C8A
    case 32 => 0xFFFA3942
    case 33 => 0x8771F681
    case 34 => 0x6D9D6122
    case 35 => 0xFDE5380C
    case 36 => 0xA4BEEA44
    case 37 => 0x4BDECFA9
    case 38 => 0xF6BB4B60
    case 39 => 0xBEBFBC70
    case 40 => 0x289B7EC6
    case 41 => 0xEAA127FA
    case 42 => 0xD4EF3085
    case 43 => 0x04881D05
    case 44 => 0xD9D4D039
    case 45 => 0xE6DB99E5
    case 46 => 0x1FA27CF8
    case 47 => 0xC4AC5665
    case 48 => 0xF4292244
    case 49 => 0x432AFF97
    case 50 => 0xAB9423A7
    case 51 => 0xFC93A039
    case 52 => 0x655B59C3
    case 53 => 0x8F0CCC92
    case 54 => 0xFFEFF47D
    case 55 => 0x85845DD1
    case 56 => 0x6FA87E4F
    case 57 => 0xFE2CE6E0
    case 58 => 0xA3014314
    case 59 => 0x4E0811A1
    case 60 => 0xF7537E82
    case 61 => 0xBD3AF235
    case 62 => 0x2AD7D2BB
    case _ => 0xEB86D391
  }

  /** One step, after which the registers have moved on by one place. */
  function Step(i: nat, r: Regs, x: seq<word>): Regs
    requires i < 64 && |x| == 16
  {
    var sum := Plus(Plus(Plus(r.a, RoundFunction(i, r.b, r.c, r.d)), x[WordIndex(i)]), T(i));
    Regs(r.d, Plus(r.b, Rotl(sum, Shift(i))), r.b, r.c)
  }

  function Steps(n: nat, r: Regs, x: seq<word>): Regs
    requires n <= 64 && |x| == 16
  {
    if n == 0 then r else Step(n - 1, Steps(n - 1, r, x), x)
  }

  function WordsOfBlock(block: Bytes): (x: seq<word>)
    requires |block| == 64
    ensures |x| == 16
  {
    seq(16, i requires 0 <= i < 16 => LittleWord(block[4 * i..4 * i + 4]))
  }

  function AddRegs(r: Regs, s: Regs): Regs {
    Regs(Plus(r.a, s.a), Plus(r.b, s.b), Plus(r.c, s.c), Plus(r.d, s.d))
  }

  function CompressWords(r: Regs, x: seq<word>): Regs
    requires |x| == 16
  {
    AddRegs(r, Steps(64, r, x))
  }

  function Compress(r: Regs, block: Bytes): Regs {
    if |block| == 64 then CompressWords(r, WordsOfBlock(block)) else r
  }

  const IV := Regs(0x67452301, 0xEFCDAB89, 0x98BADCFE, 0x10325476)

  /** The length of the message in bits modulo 2^64, low-order word first. */
  function LengthField(n: nat): (b: Bytes)
    ensures |b| == 8
  {
    var bits := 8 * n;
    LittleBytes((bits % 0x1_0000_0000) as word) + LittleBytes((bits / 0x1_0000_0000 % 0x1_0000_0000) as word)
  }

  /** Section 3.5 of RFC 1321. */
  function RegsBytes(r: Regs): (b: Bytes)
    ensures |b| == 16
  {
    LittleBytes(r.a) + LittleBytes(r.b) + LittleBytes(r.c) + LittleBytes(r.d)
  }

  /** The MD5 digest of a message. */
  ghost function Digest(m: Bytes): (d: Bytes)
    ensures |d| == 16
  {
    RegsBytes(Chain(Compress, IV, Padded(m, LengthField(|m|))))
  }
}
