/** The incremental MD5 of mid/md5/md5.c, proved to compute the digest of RFC 1321 of everything
    that was passed to `MD5Update`, however it was cut into pieces. */
module Md5 {
  import opened Basics
  import opened WordArith
  import opened BlockChain
  import opened Md5Spec

  // --- Transform ---

  /** The common form of the macros FF, GG, HH and II. */
  function Line(f: word, a: word, b: word, x: word, s: nat, ac: word): word
    requires 0 < s < 32
  {
    Plus(Rotl(Plus(a, Plus(Plus(f, x), ac)), s), b)
  }

  lemma LineIsStep(f: word, a: word, b: word, x: word, s: nat, ac: word)
    requires 0 < s < 32
    ensures Line(f, a, b, x, s, ac) == Plus(b, Rotl(Plus(Plus(Plus(a, f), x), ac), s))
  {
    hide Plus, Rotl;
    PlusAssoc(a, Plus(f, x), ac);
    PlusAssoc(a, f, x);
    PlusComm(b, Rotl(Plus(Plus(Plus(a, f), x), ac), s));
  }

  /** Four lines of the source, in the order a, d, c, b, are four steps of the specification. */
  lemma FourLines(i: nat, start: Regs, x: seq<word>, a: word, b: word, c: word, d: word,
                  a1: word, b1: word, c1: word, d1: word)
    requires i + 4 <= 64 && |x| == 16 && Regs(a, b, c, d) == Steps(i, start, x)
    requires a1 == Line(RoundFunction(i, b, c, d), a, b, x[WordIndex(i)], Shift(i), T(i))
    requires d1 == Line(RoundFunction(i + 1, a1, b, c), d, a1, x[WordIndex(i + 1)], Shift(i + 1), T(i + 1))
    requires c1 == Line(RoundFunction(i + 2, d1, a1, b), c, d1, x[WordIndex(i + 2)], Shift(i + 2), T(i + 2))
    requires b1 == Line(RoundFunction(i + 3, c1, d1, a1), b, c1, x[WordIndex(i + 3)], Shift(i + 3), T(i + 3))
    ensures Regs(a1, b1, c1, d1) == Steps(i + 4, start, x)
  {
    hide Plus, Rotl, RoundFunction, Line, T, Shift, WordIndex;
    LineIsStep(RoundFunction(i, b, c, d), a, b, x[WordIndex(i)], Shift(i), T(i));
    LineIsStep(RoundFunction(i + 1, a1, b, c), d, a1, x[WordIndex(i + 1)], Shift(i + 1), T(i + 1));
    LineIsStep(RoundFunction(i + 2, d1, a1, b), c, d1, x[WordIndex(i + 2)], Shift(i + 2), T(i + 2));
    LineIsStep(RoundFunction(i + 3, c1, d1, a1), b, c1, x[WordIndex(i + 3)], Shift(i + 3), T(i + 3));
    assert Steps(i + 1, start, x) == Regs(d, a1, b, c);
    assert Steps(i + 2, start, x) == Regs(c, d1, a1, b);
    assert Steps(i + 3, start, x) == Regs(b, c1, d1, a1);
  }

  /** Round 1 of `Transform`. */
  method Round1(r: Regs, x: seq<word>, ghost start: Regs) returns (s: Regs)
    requires |x| == 16 && r == Steps(0, start, x)
    ensures s == Steps(16, start, x)
  {
    hide Line, Steps, F, G, H, I;
    var Regs(a, b, c, d) := r;
    ghost var a0, b0, c0, d0;
    a0, b0, c0, d0 := a, b, c, d;
    a := Line(F(b, c, d), a, b, x[0], 7, 3614090360);
    d := Line(F(a, b, c), d, a, x[1], 12, 3905402710);
    c := Line(F(d, a, b), c, d, x[2], 17, 606105819);
    b := Line(F(c, d, a), b, c, x[3], 22, 3250441966);
    FourLines(0, start, x, a0, b0, c0, d0, a, b, c, d);
    a0, b0, c0, d0 := a, b, c, d;
    a := Line(F(b, c, d), a, b, x[4], 7, 4118548399);
    d := Line(F(a, b, c), d, a, x[5], 12, 1200080426);
    c := Line(F(d, a, b), c, d, x[6], 17, 2821735955);
    b := Line(F(c, d, a), b, c, x[7], 22, 4249261313);
    FourLines(4, start, x, a0, b0, c0, d0, a, b, c, d);
    a0, b0, c0, d0 := a, b, c, d;
    a := Line(F(b, c, d), a, b, x[8], 7, 1770035416);
    d := Line(F(a, b, c), d, a, x[9], 12, 2336552879);
    c := Line(F(d, a, b), c, d, x[10], 17, 4294925233);
    b := Line(F(c, d, a), b, c, x[11], 22, 2304563134);
    FourLines(8, start, x, a0, b0, c0, d0, a, b, c, d);
    a0, b0, c0, d0 := a, b, c, d;
    a := Line(F(b, c, d), a, b, x[12], 7, 1804603682);
    d := Line(F(a, b, c), d, a, x[13], 12, 4254626195);
    c := Line(F(d, a, b), c, d, x[14], 17, 2792965006);
    b := Line(F(c, d, a), b, c, x[15], 22, 1236535329);
    FourLines(12, start, x, a0, b0, c0, d0, a, b, c, d);
    s := Regs(a, b, c, d);
  }

  /** Round 2 of `Transform`. */
  method Round2(r: Regs, x: seq<word>, ghost start: Regs) returns (s: Regs)
    requires |x| == 16 && r == Steps(16, start, x)
    ensures s == Steps(32, start, x)
  {
    hide Line, Steps, F, G, H, I;
    var Regs(a, b, c, d) := r;
    ghost var a0, b0, c0, d0;
    a0, b0, c0, d0 := a, b, c, d;
    a := Line(G(b, c, d), a, b, x[1], 5, 4129170786);
    d := Line(G(a, b, c), d, a, x[6], 9, 3225465664);
    c := Line(G(d, a, b), c, d, x[11], 14, 643717713);
    b := Line(G(c, d, a), b, c, x[0], 20, 3921069994);
    FourLines(16, start, x, a0, b0, c0, d0, a, b, c, d);
    a0, b0, c0, d0 := a, b, c, d;
    a := Line(G(b, c, d), a, b, x[5], 5, 3593408605);
    d := Line(G(a, b, c), d, a, x[10], 9, 38016083);
    c := Line(G(d, a, b), c, d, x[15], 14, 3634488961);
    b := Line(G(c, d, a), b, c, x[4], 20, 3889429448);
    FourLines(20, start, x, a0, b0, c0, d0, a, b, c, d);
    a0, b0, c0, d0 := a, b, c, d;
    a := Line(G(b, c, d), a, b, x[9], 5, 568446438);
    d := Line(G(a, b, c), d, a, x[14], 9, 3275163606);
    c := Line(G(d, a, b), c, d, x[3], 14, 4107603335);
    b := Line(G(c, d, a), b, c, x[8], 20, 1163531501);
    FourLines(24, start, x, a0, b0, c0, d0, a, b, c, d);
    a0, b0, c0, d0 := a, b, c, d;
    a := Line(G(b, c, d), a, b, x[13], 5, 2850285829);
    d := Line(G(a, b, c), d, a, x[2], 9, 4243563512);
    c := Line(G(d, a, b), c, d, x[7], 14, 1735328473);
    b := Line(G(c, d, a), b, c, x[12], 20, 2368359562);
    FourLines(28, start, x, a0, b0, c0, d0, a, b, c, d);
    s := Regs(a, b, c, d);
  }

  /** Round 3 of `Transform`. */
  method Round3(r: Regs, x: seq<word>, ghost start: Regs) returns (s: Regs)
    requires |x| == 16 && r == Steps(32, start, x)
    ensures s == Steps(48, start, x)
  {
    hide Line, Steps, F, G, H, I;
    var Regs(a, b, c, d) := r;
    ghost var a0, b0, c0, d0;
    a0, b0, c0, d0 := a, b, c, d;
    a := Line(H(b, c, d), a, b, x[5], 4, 4294588738);
    d := Line(H(a, b, c), d, a, x[8], 11, 2272392833);
    c := Line(H(d, a, b), c, d, x[11], 16, 1839030562);
    b := Line(H(c, d, a), b, c, x[14], 23, 4259657740);
    FourLines(32, start, x, a0, b0, c0, d0, a, b, c, d);
    a0, b0, c0, d0 := a, b, c, d;
    a := Line(H(b, c, d), a, b, x[1], 4, 2763975236);
    d := Line(H(a, b, c), d, a, x[4], 11, 1272893353);
    c := Line(H(d, a, b), c, d, x[7], 16, 4139469664);
    b := Line(H(c, d, a), b, c, x[10], 23, 3200236656);
    FourLines(36, start, x, a0, b0, c0, d0, a, b, c, d);
    a0, b0, c0, d0 := a, b, c, d;
    a := Line(H(b, c, d), a, b, x[13], 4, 681279174);
    d := Line(H(a, b, c), d, a, x[0], 11, 3936430074);
    c := Line(H(d, a, b), c, d, x[3], 16, 3572445317);
    b := Line(H(c, d, a), b, c, x[6], 23, 76029189);
    FourLines(40, start, x, a0, b0, c0, d0, a, b, c, d);
    a0, b0, c0, d0 := a, b, c, d;
    a := Line(H(b, c, d), a, b, x[9], 4, 3654602809);
    d := Line(H(a, b, c), d, a, x[12], 11, 3873151461);
    c := Line(H(d, a, b), c, d, x[15], 16, 530742520);
    b := Line(H(c, d, a), b, c, x[2], 23, 3299628645);
    FourLines(44, start, x, a0, b0, c0, d0, a, b, c, d);
    s := Regs(a, b, c, d);
  }

  /** Round 4 of `Transform`. */
  method Round4(r: Regs, x: seq<word>, ghost start: Regs) returns (s: Regs)
    requires |x| == 16 && r == Steps(48, start, x)
    ensures s == Steps(64, start, x)
  {
    hide Line, Steps, F, G, H, I;
    var Regs(a, b, c, d) := r;
    ghost var a0, b0, c0, d0;
    a0, b0, c0, d0 := a, b, c, d;
    a := Line(I(b, c, d), a, b, x[0], 6, 4096336452);
    d := Line(I(a, b, c), d, a, x[7], 10, 1126891415);
    c := Line(I(d, a, b), c, d, x[14], 15, 2878612391);
    b := Line(I(c, d, a), b, c, x[5], 21, 4237533241);
    FourLines(48, start, x, a0, b0, c0, d0, a, b, c, d);
    a0, b0, c0, d0 := a, b, c, d;
    a := Line(I(b, c, d), a, b, x[12], 6, 1700485571);
    d := Line(I(a, b, c), d, a, x[3], 10, 2399980690);
    c := Line(I(d, a, b), c, d, x[10], 15, 4293915773);
    b := Line(I(c, d, a), b, c, x[1], 21, 2240044497);
    FourLines(52, start, x, a0, b0, c0, d0, a, b, c, d);
    a0, b0, c0, d0 := a, b, c, d;
    a := Line(I(b, c, d), a, b, x[8], 6, 1873313359);
    d := Line(I(a, b, c), d, a, x[15], 10, 4264355552);
    c := Line(I(d, a, b), c, d, x[6], 15, 2734768916);
    b := Line(I(c, d, a), b, c, x[13], 21, 1309151649);
    FourLines(56, start, x, a0, b0, c0, d0, a, b, c, d);
    a0, b0, c0, d0 := a, b, c, d;
    a := Line(I(b, c, d), a, b, x[4], 6, 4149444226);
    d := Line(I(a, b, c), d, a, x[11], 10, 3174756917);
    c := Line(I(d, a, b), c, d, x[2], 15, 718787259);
    b := Line(I(c, d, a), b, c, x[9], 21, 3951481745);
    FourLines(60, start, x, a0, b0, c0, d0, a, b, c, d);
    s := Regs(a, b, c, d);
  }

  /** `Transform`. */
  method Transform(buf: Regs, x: seq<word>) returns (r: Regs)
    requires |x| == 16
    ensures r == CompressWords(buf, x)
  {
    hide Steps, Plus;
    StepsBegin(buf, x);
    var s := Round1(buf, x, buf);
    s := Round2(s, x, buf);
    s := Round3(s, x, buf);
    s := Round4(s, x, buf);
    r := Regs(Plus(buf.a, s.a), Plus(buf.b, s.b), Plus(buf.c, s.c), Plus(buf.d, s.d));
  }

  lemma StepsBegin(r: Regs, x: seq<word>)
    requires |x| == 16
    ensures Steps(0, r, x) == r
  {
  }

  // --- the context ---

  const PADDING: Bytes := [0x80] + Zeros(63)

  lemma PaddingPrefix(n: nat)
    requires 1 <= n <= 64
    ensures PADDING[..n] == [0x80] + Zeros(n - 1)
  {
  }

  /** The two counter words hold the length in bits of n bytes, modulo 2^64. */
  ghost predicate Counts(i0: word, i1: word, n: nat) {
    i0 as int + 0x1_0000_0000 * i1 as int == 8 * n % 0x1_0000_0000_0000_0000
  }

  /** The same, with the number of times the counter wrapped around. */
  lemma CountsWrapped(i0: word, i1: word, n: nat) returns (q: nat)
    requires Counts(i0, i1, n)
    ensures 8 * n == i0 as int + 0x1_0000_0000 * i1 as int + 0x1_0000_0000_0000_0000 * q
  {
    q := 8 * n / 0x1_0000_0000_0000_0000;
  }

  lemma CountsFrom(i0: word, i1: word, n: nat, q: nat)
    requires 8 * n == i0 as int + 0x1_0000_0000 * i1 as int + 0x1_0000_0000_0000_0000 * q
    ensures Counts(i0, i1, n)
  {
  }

  /** Advancing the counter by k bytes, with the carry the source computes. */
  lemma CounterAdvances(i0: word, i1: word, n: nat, k: nat, j0: word, j1: word)
    requires Counts(i0, i1, n) && k < 0x1_0000_0000
    requires j0 == Plus(i0, (8 * k % 0x1_0000_0000) as word)
    requires j1 == Plus(if j0 < i0 then Plus(i1, 1) else i1, (k / 0x2000_0000) as word)
    ensures Counts(j0, j1, n + k)
  {
    hide Counts, Plus;
    var q := CountsWrapped(i0, i1, n);
    ShiftedOut(k as word);
    PlusIs(i0, (8 * k % 0x1_0000_0000) as word);
    var carry := if j0 < i0 then 1 else 0;
    var r := CarryOut(i1, carry, k / 0x2000_0000, j1);
    CountsFrom(j0, j1, n + k, q + r);
  }

  lemma CarryOut(i1: word, carry: int, hi: int, j1: word) returns (r: nat)
    requires 0 <= carry <= 1 && 0 <= hi < 8
    requires j1 == Plus(if carry == 1 then Plus(i1, 1) else i1, hi as word)
    ensures i1 as int + carry + hi == j1 as int + 0x1_0000_0000 * r
  {
    hide Plus;
    PlusIs(i1, 1);
    PlusIs(if carry == 1 then Plus(i1, 1) else i1, hi as word);
    r := (i1 as int + carry + hi) / 0x1_0000_0000;
  }

  class Context {
    var i0: word
    var i1: word
    var buf: Regs
    const input: array<byte>
    var digest: Bytes
    ghost var message: Bytes  // everything passed to Update so far

    /** `MD5Init`. */
    constructor ()
      ensures Valid() && message == [] && fresh(input)
    {
      i0, i1 := 0, 0;
      buf := IV;
      input := new byte[64](_ => 0);
      digest := [];
      message := [];
    }

    /** The counter is the length in bits modulo 2^64, the registers cover the full blocks, and the
        rest of the message is in the input buffer. */
    ghost predicate Valid()
      reads this, input
    {
      && input.Length == 64
      && Counts(i0, i1, |message|)
      && Absorbed(message, buf, input[..|message| % 64])
    }

    /** `MD5Update`. */
    method Update(inBuf: Bytes)
      requires Valid() && |inBuf| < 0x1_0000_0000
      modifies this, input
      ensures Valid() && message == old(message) + inBuf
    {
      hide Absorbed, Counts;
      var mdi := (i0 / 8 % 64) as int;
      PositionFromCounter(i0, i1, |message|);
      AddToCounter(|inBuf|);
      for k := 0 to |inBuf|
        invariant Buffered(mdi)
        invariant message == old(message) + inBuf[..k]
        invariant Counts(i0, i1, |old(message)| + |inBuf|)
      {
        mdi := AddByte(mdi, inBuf[k]);
        assert old(message) + inBuf[..k] + [inBuf[k]] == old(message) + inBuf[..k + 1];
      }
      assert inBuf[..|inBuf|] == inBuf;
    }

    /** What the loop of `MD5Update` keeps about the input buffer. */
    ghost predicate Buffered(mdi: int)
      reads this, input
    {
      && input.Length == 64
      && mdi == |message| % 64
      && Absorbed(message, buf, input[..mdi])
    }

    /** One round of the loop of `MD5Update`. */
    method AddByte(position: int, b: byte) returns (mdi: int)
      requires Buffered(position)
      modifies this`buf, this`message, input
      ensures Buffered(mdi) && message == old(message) + [b]
    {
      hide Absorbed, CompressWords, WordsOfBlock;
      ghost var tail := input[..position];
      AbsorbByte(message, buf, tail, b);
      message := message + [b];
      input[position] := b;
      mdi := position + 1;
      assert input[..mdi] == tail + [b];
      if mdi == 64 {
        assert input[..] == input[..64];
        buf := Transform(buf, WordsOfBlock(input[..]));
        mdi := 0;
        assert input[..0] == [];
      }
    }

    /** The two statements of `MD5Update` that advance the counter. */
    method AddToCounter(inLen: nat)
      requires inLen < 0x1_0000_0000
      requires Counts(i0, i1, |message|)
      modifies this`i0, this`i1
      ensures Counts(i0, i1, |message| + inLen)
    {
      hide Counts, Plus;
      var bits := (8 * inLen % 0x1_0000_0000) as word;
      if Plus(i0, bits) < i0 {
        i1 := Plus(i1, 1);
      }
      i0 := Plus(i0, bits);
      i1 := Plus(i1, (inLen / 0x2000_0000) as word);
      CounterAdvances(old(i0), old(i1), |message|, inLen, i0, i1);
    }

    /** `MD5Final`. */
    method Final()
      requires Valid()
      modifies this, input
      ensures digest == Digest(old(message))
    {
      hide Absorbed, Counts, Padded, LengthField, Zeros, RegsBytes, CompressWords, WordsOfBlock;
      ghost var m := message;
      var in14, in15 := i0, i1;
      var mdi := (i0 / 8 % 64) as int;
      PositionFromCounter(i0, i1, |message|);
      var padLen := if mdi < 56 then 56 - mdi else 120 - mdi;
      PaddingPrefix(padLen);
      Update(PADDING[..padLen]);
      PadPosition(|m|, padLen);
      var x := FirstWords(input[..56]) + [in14, in15];
      LastBlock(m, in14, in15, message, buf, input[..56], x);
      buf := Transform(buf, x);
      digest := RegsBytes(buf);
    }
  }

  /** The loop that reads fourteen words of the last block. */
  function FirstWords(tail: Bytes): (x: seq<word>)
    requires |tail| == 56
    ensures |x| == 14
  {
    seq(14, i requires 0 <= i < 14 => LittleWord(tail[4 * i..4 * i + 4]))
  }

  /** The position in the input buffer, which the source recomputes from the counter. */
  lemma PositionFromCounter(i0: word, i1: word, n: nat)
    requires Counts(i0, i1, n)
    ensures i0 / 8 % 64 == (n % 64) as word
  {
    hide Counts;
    var q := CountsWrapped(i0, i1, n);
    PositionModulo(i0 as int / 8, 0x80_0000 * i1 as int + 0x80_0000_0000_0000 * q, n);
  }

  lemma PositionModulo(p: nat, blocks: nat, n: nat)
    requires n == p + 64 * blocks
    ensures p % 64 == n % 64
  {
  }

  /** The registers r have absorbed the full blocks of m, and tail is the rest. */
  ghost predicate Absorbed(m: Bytes, r: Regs, tail: Bytes) {
    var n := Whole(|m|);
    m[n..] == tail && r == Chain(Compress, IV, m)
  }

  lemma AbsorbByte(m: Bytes, r: Regs, tail: Bytes, b: byte)
    requires Absorbed(m, r, tail)
    ensures |tail| == |m| % 64
    ensures |tail| < 63 ==> Absorbed(m + [b], r, tail + [b])
    ensures |tail| == 63 ==> Absorbed(m + [b], CompressWords(r, WordsOfBlock(tail + [b])), [])
  {
    hide CompressWords, WordsOfBlock, Chain;
    SplitBlocks(m);
    var full := FullBlocks(m);
    ChainRest(Compress, IV, full, tail);
    assert m + [b] == full + (tail + [b]);
    if |tail| < 63 {
      AbsorbedBy(full, tail + [b]);
    } else {
      ChainBlock(Compress, IV, full, tail + [b]);
      AbsorbedBy(full + (tail + [b]), []);
      assert m + [b] == full + (tail + [b]) + [];
    }
  }

  function FullBlocks(m: Bytes): Bytes {
    m[..Whole(|m|)]
  }

  lemma SplitBlocks(m: Bytes)
    ensures |FullBlocks(m)| % 64 == 0 && m == FullBlocks(m) + m[Whole(|m|)..]
  {
  }

  lemma AbsorbedBy(full: Bytes, tail: Bytes)
    requires |full| % 64 == 0 && |tail| < 64
    ensures Absorbed(full + tail, Chain(Compress, IV, full), tail)
  {
    hide Chain;
    ChainRest(Compress, IV, full, tail);
    assert |full + tail| / 64 * 64 == |full|;
  }

  lemma PadPosition(n: nat, padLen: nat)
    requires padLen == (if n % 64 < 56 then 56 - n % 64 else 120 - n % 64)
    ensures padLen - 1 == ZeroCount(n) && (n + padLen) % 64 == 56
  {
  }

  /** The block that `MD5Final` transforms last completes the padded message. */
  lemma LastBlock(m: Bytes, i0: word, i1: word, padded: Bytes, r: Regs, tail: Bytes, x: seq<word>)
    requires Counts(i0, i1, |m|)
    requires padded == m + ([0x80] + Zeros(ZeroCount(|m|))) && |padded| % 64 == 56
    requires Absorbed(padded, r, tail) && |tail| == 56 && x == FirstWords(tail) + [i0, i1]
    ensures CompressWords(r, x) == Chain(Compress, IV, Padded(m, LengthField(|m|)))
  {
    hide CompressWords, Chain, LengthField, FirstWords, WordsOfBlock, Zeros, ZeroCount, LittleBytes;
    var field := LengthField(|m|);
    CounterWords(i0, i1, |m|);
    LastWords(tail, i0, i1, field);
    SplitBlocks(padded);
    var full := FullBlocks(padded);
    ChainRest(Compress, IV, full, tail);
    ChainBlock(Compress, IV, full, tail + field);
    assert Padded(m, field) == full + (tail + field);
  }

  lemma CounterWords(i0: word, i1: word, n: nat)
    requires Counts(i0, i1, n)
    ensures LengthField(n) == LittleBytes(i0) + LittleBytes(i1)
  {
    hide LittleBytes, Counts;
    var q := CountsWrapped(i0, i1, n);
    var high := i1 as int + 0x1_0000_0000 * q;
    assert 8 * n == 0x1_0000_0000 * high + i0 as int;
    WideSplit(high, i0 as int);
    WideSplit(q, i1 as int);
  }

  lemma LastWords(tail: Bytes, i0: word, i1: word, field: Bytes)
    requires |tail| == 56 && field == LittleBytes(i0) + LittleBytes(i1)
    ensures WordsOfBlock(tail + field) == FirstWords(tail) + [i0, i1]
  {
    hide LittleWord, LittleBytes;
    var block := tail + field;
    WordOfBytes(i0);
    WordOfBytes(i1);
    assert block[56..60] == LittleBytes(i0) && block[60..64] == LittleBytes(i1);
    forall i | 0 <= i < 14 ensures block[4 * i..4 * i + 4] == tail[4 * i..4 * i + 4] { }
  }

  /** The digest does not depend on how the message is cut into calls of `MD5Update`. */
  method DigestOfPieces(pieces: seq<Bytes>) returns (digest: Bytes)
    requires forall k :: 0 <= k < |pieces| ==> |pieces[k]| < 0x1_0000_0000
    ensures digest == Digest(Joined(pieces))
  {
    hide Digest, Context.Valid;
    var context := new Context();
    for k := 0 to |pieces|
      invariant context.Valid() && fresh(context) && fresh(context.input)
      invariant context.message == Joined(pieces[..k])
    {
      context.Update(pieces[k]);
      assert pieces[..k + 1][..k] == pieces[..k];
    }
    assert pieces[..|pieces|] == pieces;
    context.Final();
    digest := context.digest;
  }
}
