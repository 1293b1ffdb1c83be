/** The incremental SHA-1 of mid/sha/sha.c: a block buffer that is flushed lazily and a 32-bit count of
    blocks, proved to compute the digest of FIPS 180-4 however the message is cut into pieces. */
module Sha1 {
  import opened Basics
  import opened WordArith
  import opened BlockChain
  import opened Sha1Spec
  import opened Sha1Transform

  /** The message m is in the context: h covers all of it but a last part, which may be a whole block. */
  ghost predicate Held(m: Bytes, h: Regs, tail: Bytes) {
    && |tail| <= 64 && |tail| <= |m| && (|m| - |tail|) % 64 == 0
    && m[|m| - |tail|..] == tail
    && h == Chain(Compress, IV, m[..|m| - |tail|])
  }

  lemma HeldByte(m: Bytes, h: Regs, tail: Bytes, b: byte)
    requires Held(m, h, tail) && |tail| < 64
    ensures Held(m + [b], h, tail + [b])
  {
    hide Chain;
    var n := |m| - |tail|;
    assert (m + [b])[..n] == m[..n];
  }

  lemma HeldBlock(m: Bytes, h: Regs, block: Bytes)
    requires Held(m, h, []) && |block| == 64
    ensures Held(m + block, CompressBlock(h, block), [])
  {
    hide Chain, CompressBlock;
    assert m[..|m|] == m && (m + block)[..|m + block|] == m + block;
    ChainBlock(Compress, IV, m, block);
  }

  lemma HeldFlush(m: Bytes, h: Regs, tail: Bytes)
    requires Held(m, h, tail) && |tail| == 64
    ensures Held(m, CompressBlock(h, tail), [])
  {
    hide Chain, CompressBlock;
    var full := m[..|m| - 64];
    assert full[..|full|] == full && full + tail == m;
    HeldBlock(full, h, tail);
  }

  /** The length that the 32-bit block count and the buffer position can express: the true length
      modulo 2^38 bytes. */
  const LENGTHS := 0x40_0000_0000

  /** The block count modulo 2^32 of n bytes in whole blocks. */
  ghost predicate Counts(nblocks: word, n: int) {
    n % 64 == 0 && nblocks as int == n / 64 % 0x1_0000_0000
  }

  /** The addition with carry of `sha1_final`. */
  method AddCount(msb0: word, lsb0: word, count: word) returns (msb: word, lsb: word)
    ensures 0x1_0000_0000 * msb as int + lsb as int
         == (0x1_0000_0000 * msb0 as int + lsb0 as int + count as int) % 0x1_0000_0000_0000_0000
  {
    hide Plus;
    PlusIs(lsb0, count);
    PlusIs(msb0, 1);
    var t := lsb0;
    msb, lsb := msb0, Plus(lsb0, count);
    if lsb < t {
      msb := Plus(msb, 1);
    }
    WideSum(0x1_0000_0000 * msb0 as int + lsb0 as int + count as int, 0x1_0000_0000 * msb as int + lsb as int);
  }

  lemma WideSum(n: nat, r: nat)
    requires r < 0x1_0000_0000_0000_0000 && (n == r || n == r + 0x1_0000_0000_0000_0000)
    ensures n % 0x1_0000_0000_0000_0000 == r
  {
  }

  lemma MoreZeros(before: Bytes, n: nat)
    ensures before + Zeros(n) + [0] == before + Zeros(n + 1) && before + Zeros(0) == before
  {
    assert Zeros(n) + [0] == Zeros(n + 1);
  }

  lemma TakeNext(before: Bytes, s: Bytes, n: nat)
    requires n < |s|
    ensures before + s[..n] + [s[n]] == before + s[..n + 1]
  {
    assert s[..n] + [s[n]] == s[..n + 1];
  }

  class Context {
    var h: Regs
    var nblocks: word
    const buf: array<byte>
    var count: int
    ghost var message: Bytes  // everything written so far

    /** `sha1_init`. */
    constructor ()
      ensures Valid() && message == [] && fresh(buf)
    {
      h := IV;
      nblocks := 0;
      buf := new byte[64](_ => 0);
      count := 0;
      message := [];
    }

    ghost predicate Valid()
      reads this, buf
    {
      && buf.Length == 64
      && 0 <= count <= 64
      && Held(message, h, buf[..count])
      && Counts(nblocks, |message| - count)
    }

    /** The statement that appends one byte to the buffer. */
    method Put(b: byte)
      requires Valid() && count < 64
      modifies this`count, this`message, buf
      ensures Valid() && count == old(count) + 1 && message == old(message) + [b]
    {
      hide Held, Counts;
      HeldByte(message, h, buf[..count], b);
      ghost var tail := buf[..count];
      buf[count] := b;
      count := count + 1;
      assert buf[..count] == tail + [b];
      message := message + [b];
    }

    /** `sha1_write` without data: a full buffer is hashed. */
    method Flush()
      requires Valid()
      modifies this`h, this`nblocks, this`count
      ensures Valid() && count == if old(count) == 64 then 0 else old(count)
    {
      hide Held, CompressBlock, Counts, Plus;
      if count == 64 {
        assert buf[..] == buf[..64];
        NextBlock(nblocks, |message| - 64);
        HeldFlush(message, h, buf[..]);
        h := Transform(h, buf[..]);
        count := 0;
        nblocks := Plus(nblocks, 1);
        assert buf[..0] == [];
      }
    }

    /** One round of the loop of `sha1_write` that hashes blocks where they lie. */
    method WriteBlock(block: Bytes)
      requires Valid() && count == 0 && |block| == 64
      modifies this`h, this`nblocks, this`message
      ensures Valid() && message == old(message) + block
    {
      hide Held, CompressBlock, Counts, Plus;
      assert buf[..0] == [];
      HeldBlock(message, h, block);
      NextBlock(nblocks, |message|);
      h := Transform(h, block);
      nblocks := Plus(nblocks, 1);
      message := message + block;
    }

    /** The loops of `sha1_write` that copy bytes into the buffer until it is full. */
    method Fill(inbuf: Bytes) returns (n: nat)
      requires Valid()
      modifies this`count, this`message, buf
      ensures Valid() && n <= |inbuf| && message == old(message) + inbuf[..n]
      ensures count == old(count) + n && (n == |inbuf| || count == 64)
    {
      assert count <= 64;
      hide *;
      n := 0;
      assert old(message) + inbuf[..n] == message;
      while n < |inbuf| && count < 64
        invariant Valid() && count <= 64 && n <= |inbuf| && message == old(message) + inbuf[..n] && count == old(count) + n
      {
        Put(inbuf[n]);
        TakeNext(old(message), inbuf, n);
        n := n + 1;
      }
    }

    /** `sha1_write`. */
    method Write(inbuf: Bytes)
      requires Valid()
      modifies this`h, this`nblocks, this`count, this`message, buf
      ensures Valid() && message == old(message) + inbuf
    {
      hide Held, Counts;
      Flush();
      var i := 0;
      if count > 0 {
        i := Fill(inbuf);
        Flush();
        if i == |inbuf| {
          assert inbuf[..i] == inbuf;
          return;
        }
      }
      while |inbuf| - i >= 64
        invariant Valid() && count == 0 && i <= |inbuf| && message == old(message) + inbuf[..i]
      {
        WriteBlock(inbuf[i..i + 64]);
        assert inbuf[..i] + inbuf[i..i + 64] == inbuf[..i + 64];
        i := i + 64;
      }
      var n := Fill(inbuf[i..]);
      assert inbuf[i..][..n] == inbuf[i..] && inbuf[..i] + inbuf[i..] == inbuf;
    }

    /** The two words of the length in bits, as `sha1_final` computes them. The right shift in the last
        statement of the source fills bits that are zero, so its bitwise or is a sum. */
    method BitCount() returns (msb: word, lsb: word)
      requires Valid() && count < 64
      ensures BigBytes(msb) + BigBytes(lsb) == LengthField(|message| % LENGTHS)
    {
      hide Held, BigBytes, Counts, Plus;
      HeldLength(message, h, buf[..count]);
      ByteCount(nblocks, count, |message|);
      var t := nblocks;
      lsb := (t as int * 64 % 0x1_0000_0000) as word;
      msb := t / 0x400_0000;
      msb, lsb := AddCount(msb, lsb, count as word);
      msb, lsb := TimesEight(|message| % LENGTHS, msb, lsb);
    }

    /** The padding of `sha1_final`, up to the length field; the result is the padded part. */
    method Pad() returns (ghost padded: Bytes)
      requires Valid() && count < 64
      modifies this`h, this`nblocks, this`count, this`message, buf
      ensures padded == old(message) + [0x80] + Zeros(ZeroCount(|old(message)|))
      ensures buf.Length == 64 && Held(padded, h, buf[..56])
    {
      hide Held, Counts;
      ghost var m, room := message, 55 - count;
      PadPosition(m, h, buf[..count]);
      var enough := count < 56;
      Put(0x80);
      ghost var zeros := PutZeros(if enough then 56 else 64);
      if enough {
        padded := message;
      } else {
        Flush();
        padded := message + Zeros(56);
        ClearBuffer();
        assert m + [0x80] + Zeros(zeros) + Zeros(56) == m + [0x80] + Zeros(zeros + 56);
      }
    }

    /** The loops that store zero bytes up to a position. */
    method PutZeros(end: int) returns (ghost zeros: nat)
      requires Valid() && count <= end <= 64
      modifies this`count, this`message, buf
      ensures Valid() && count == end && zeros == end - old(count) && message == old(message) + Zeros(zeros)
    {
      hide *;
      zeros := 0;
      MoreZeros(message, 0);
      while count < end
        invariant Valid() && count == old(count) + zeros <= end && message == old(message) + Zeros(zeros)
      {
        Put(0);
        MoreZeros(old(message), zeros);
        zeros := zeros + 1;
      }
    }

    /** The `memset` of the buffer when the length field needs a block of its own. */
    method ClearBuffer()
      requires Valid() && count == 0
      modifies buf
      ensures Held(message + Zeros(56), h, buf[..56])
    {
      hide Chain;
      forall i | 0 <= i < 56 { buf[i] := 0; }
      assert buf[..56] == Zeros(56);
      assert (message + Zeros(56))[..|message|] == message[..|message|];
    }

    /** `sha1_final`: the digest is left at the start of the buffer. */
    method Final()
      requires Valid()
      modifies this`h, this`nblocks, this`count, this`message, buf
      ensures buf.Length == 64
      ensures buf[..20] == DigestWith(old(message), LengthField(|old(message)| % LENGTHS))
    {
      hide Held, Counts, Padded, LengthField, CompressBlock;
      ghost var m := message;
      Flush();
      var msb, lsb := BitCount();
      ghost var padded := Pad();
      ghost var tail := buf[..56];
      Store(56, msb);
      Store(60, lsb);
      assert buf[..] == tail + (BigBytes(msb) + BigBytes(lsb));
      LastBlock(m, padded, h, tail, BigBytes(msb) + BigBytes(lsb));
      h := Transform(h, buf[..]);
      StoreDigest();
    }

    /** Four bytes of the buffer, most significant first. */
    method Store(p: nat, w: word)
      requires buf.Length == 64 && p + 4 <= 64
      modifies buf
      ensures buf[..] == old(buf[..p]) + BigBytes(w) + old(buf[p + 4..])
    {
      buf[p] := (w / 0x100_0000) as byte;
      buf[p + 1] := (w / 0x1_0000 % 0x100) as byte;
      buf[p + 2] := (w / 0x100 % 0x100) as byte;
      buf[p + 3] := (w % 0x100) as byte;
      assert buf[p..p + 4] == BigBytes(w);
    }

    method StoreDigest()
      requires buf.Length == 64
      modifies buf
      ensures buf[..20] == RegsBytes(h)
    {
      hide BigBytes;
      Store(0, h.a);
      assert buf[..4] == BigBytes(h.a);
      Store(4, h.b);
      assert buf[..8] == BigBytes(h.a) + BigBytes(h.b);
      Store(8, h.c);
      assert buf[..12] == BigBytes(h.a) + BigBytes(h.b) + BigBytes(h.c);
      Store(12, h.d);
      assert buf[..16] == BigBytes(h.a) + BigBytes(h.b) + BigBytes(h.c) + BigBytes(h.d);
      Store(16, h.e);
    }
  }

  lemma HeldLength(m: Bytes, h: Regs, tail: Bytes)
    requires Held(m, h, tail)
    ensures |tail| <= |m|
  {
    hide Chain;
  }

  lemma NextBlock(nblocks: word, n: int)
    requires Counts(nblocks, n)
    ensures Counts(Plus(nblocks, 1), n + 64)
  {
    assert (n + 64) / 64 == n / 64 + 1;
  }

  /** The two words of the byte count need no carry: a block count times 64 leaves room for the rest. */
  lemma ByteCount(nblocks: word, count: int, n: nat)
    requires 0 <= count < 64 && count <= n && Counts(nblocks, n - count)
    ensures n % LENGTHS == 0x1_0000_0000 * (nblocks as int / 0x400_0000) + nblocks as int * 64 % 0x1_0000_0000 + count
    ensures nblocks as int * 64 % 0x1_0000_0000 + count < 0x1_0000_0000
  {
    var k := nblocks as int;
    var q := (n - count) / 64 / 0x1_0000_0000;
    assert n == LENGTHS * q + (64 * k + count);
    assert n % LENGTHS == 64 * k + count;
    var high, low := k / 0x400_0000, k % 0x400_0000;
    assert 64 * k == 0x1_0000_0000 * high + 64 * low;
    assert 64 * k % 0x1_0000_0000 == 64 * low;
  }

  /** The shifts that turn the byte count n into a bit count. */
  method TimesEight(ghost n: nat, msb0: word, lsb0: word) returns (msb: word, lsb: word)
    requires n == 0x1_0000_0000 * msb0 as int + lsb0 as int && msb0 < 0x1000_0000
    ensures BigBytes(msb) + BigBytes(lsb) == LengthField(n)
  {
    hide BigBytes, Plus;
    var t := lsb0;
    ShiftedOut(lsb0);
    WideSplit(0, 8 * msb0 as int);
    lsb := (lsb0 as int * 8 % 0x1_0000_0000) as word;
    msb := (msb0 as int * 8 % 0x1_0000_0000) as word;
    PlusIs(msb, t / 0x2000_0000);
    msb := Plus(msb, t / 0x2000_0000);
    WideSplit(msb as int, lsb as int);
    assert 8 * n == 0x1_0000_0000 * msb as int + lsb as int;
  }

  lemma PadPosition(m: Bytes, h: Regs, tail: Bytes)
    requires Held(m, h, tail) && |tail| < 64
    ensures ZeroCount(|m|) == if |tail| < 56 then 55 - |tail| else 119 - |tail|
  {
    hide Chain;
    assert |m| % 64 == |tail|;
  }

  /** The last block completes the padded message. */
  lemma LastBlock(m: Bytes, padded: Bytes, h: Regs, tail: Bytes, field: Bytes)
    requires padded == m + [0x80] + Zeros(ZeroCount(|m|)) && |field| == 8
    requires Held(padded, h, tail) && |tail| == 56
    ensures CompressBlock(h, tail + field) == Chain(Compress, IV, Padded(m, field))
  {
    hide Chain, CompressBlock, Zeros, ZeroCount;
    var full := padded[..|padded| - 56];
    ChainBlock(Compress, IV, full, tail + field);
    assert Padded(m, field) == full + (tail + field);
  }

  /** Writing a message in any pieces and finishing leaves its digest in the buffer, as long as the
      block count has not wrapped around. */
  method DigestOfPieces(pieces: seq<Bytes>) returns (digest: Bytes)
    ensures |Joined(pieces)| < LENGTHS ==> digest == Digest(Joined(pieces))
    ensures digest == DigestWith(Joined(pieces), LengthField(|Joined(pieces)| % LENGTHS))
  {
    hide DigestWith, LengthField, Context.Valid;
    var context := new Context();
    for k := 0 to |pieces|
      invariant context.Valid() && fresh(context) && fresh(context.buf)
      invariant context.message == Joined(pieces[..k])
    {
      context.Write(pieces[k]);
      assert pieces[..k + 1][..k] == pieces[..k];
    }
    assert pieces[..|pieces|] == pieces;
    context.Final();
    digest := context.buf[..20];
  }

  /** The length field is the one the standard asks for exactly up to 2^32 blocks. */
  lemma LengthFieldExact(n: nat)
    requires n < 0x2000_0000_0000_0000
    ensures LengthField(n % LENGTHS) == LengthField(n) <==> n < LENGTHS
  {
    hide LengthField;
    if n < LENGTHS {
      assert n % LENGTHS == n;
    } else if LengthField(n % LENGTHS) == LengthField(n) {
      SameField(n % LENGTHS, n);
      assert false;
    }
  }

  lemma SameField(k: nat, n: nat)
    requires k < 0x2000_0000_0000_0000 && n < 0x2000_0000_0000_0000
    requires LengthField(k) == LengthField(n)
    ensures k == n
  {
    hide LengthField, BigWord;
    FieldValue(k);
    FieldValue(n);
  }

  /** The number that a length field stands for. */
  lemma FieldValue(n: nat)
    requires n < 0x2000_0000_0000_0000
    ensures var f := LengthField(n);
      0x1_0000_0000 * BigWord(f[..4]) as int + BigWord(f[4..]) as int == 8 * n
  {
    hide BigBytes, BigWord;
    var high, low := (8 * n / 0x1_0000_0000) as word, (8 * n % 0x1_0000_0000) as word;
    WordOfBytes(high);
    WordOfBytes(low);
    assert LengthField(n)[..4] == BigBytes(high) && LengthField(n)[4..] == BigBytes(low);
  }
}
