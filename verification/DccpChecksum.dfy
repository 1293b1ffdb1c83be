/** What the checksum of a DCCP frame is, bit by bit, and which damage it detects. */
module DccpChecksum {
  import opened Basics
  import opened BitOps
  import opened Dccp

  // --- the exclusive or of two bytes ---

  lemma HalfOfBits(x: bv8)
    ensures (x >> 1) as int == x as int / 2 && (x & 1) as int == x as int % 2
  {
  }

  lemma HalfOfXor(a: bv8, b: bv8)
    ensures XorBits(a, b) >> 1 == XorBits(a >> 1, b >> 1) && XorBits(a, b) & 1 == XorBits(a & 1, b & 1)
  {
  }

  lemma {:induction false} XorBitsDigit(a: bv8, b: bv8, k: nat)
    ensures Digit(XorBits(a, b) as int, k) == (Digit(a as int, k) + Digit(b as int, k)) % 2
    decreases k
  {
    HalfOfBits(a);
    HalfOfBits(b);
    HalfOfBits(XorBits(a, b));
    HalfOfXor(a, b);
    if k == 0 {
      LastBits(a & 1, b & 1);
    } else {
      hide XorBits;
      XorBitsDigit(a >> 1, b >> 1, k - 1);
    }
  }

  lemma LastBits(a: bv8, b: bv8)
    requires a < 2 && b < 2
    ensures XorBits(a, b) as int == (a as int + b as int) % 2
  {
  }

  lemma ByteAsBits(b: byte)
    ensures (b as bv8) as int == b as int
  {
    var c := BitsOf(b as nat);
    assert c as byte == b;
    BitsAsByte(c);
  }

  lemma {:induction false} BitsOf(i: nat) returns (c: bv8)
    requires i < 256
    ensures c as int == i
  {
    c := 0;
    if i > 0 {
      c := BitsOf(i - 1);
      c := c + 1;
    }
  }

  /** A bit of the exclusive or is set exactly if it is set in one of the two bytes. */
  lemma XorDigit(a: byte, b: byte, k: nat)
    ensures Digit(Xor(a, b) as nat, k) == 1 <==> Digit(a as nat, k) != Digit(b as nat, k)
  {
    ByteAsBits(a);
    ByteAsBits(b);
    XorBitsDigit(a as bv8, b as bv8, k);
  }

  lemma XorAsBits(a: byte, b: byte)
    ensures Xor(a, b) as bv8 == XorBits(a as bv8, b as bv8)
  {
    BitsAsByte(XorBits(a as bv8, b as bv8));
  }

  lemma BitsAsByte(b: bv8)
    ensures (b as byte) as bv8 == b
  {
  }

  lemma XorBitsTwice(a: bv8, b: bv8)
    ensures XorBits(XorBits(a, b), b) == a && XorBits(a, XorBits(a, b)) == b && XorBits(0, a) == a && XorBits(a, a) == 0
  {
  }

  lemma SameBits(a: byte, b: byte)
    requires a as bv8 == b as bv8
    ensures a == b
  {
    ByteAsBits(a);
    ByteAsBits(b);
  }

  lemma XorZero(a: byte)
    ensures Xor(0, a) == a && Xor(a, a) == 0
  {
    XorAsBits(0, a);
    XorAsBits(a, a);
    XorBitsTwice(a as bv8, a as bv8);
    hide Xor, XorBits;
    SameBits(Xor(0, a), a);
    SameBits(Xor(a, a), 0);
  }

  /** Each operand can be recovered from the other and the result. */
  lemma XorCancels(a: byte, b: byte, c: byte)
    ensures Xor(a, c) == Xor(b, c) ==> a == b
    ensures Xor(c, a) == Xor(c, b) ==> a == b
  {
    XorAsBits(a, c);
    XorAsBits(b, c);
    XorAsBits(c, a);
    XorAsBits(c, b);
    XorBitsTwice(a as bv8, c as bv8);
    XorBitsTwice(b as bv8, c as bv8);
    XorBitsTwice(c as bv8, a as bv8);
    XorBitsTwice(c as bv8, b as bv8);
    hide Xor, XorBits;
    if a as bv8 == b as bv8 {
      SameBits(a, b);
    }
  }

  // --- the checksum ---

  /** The checksum of one byte is that byte. */
  lemma ChecksumOfOne(a: byte)
    ensures Checksum(0, [a]) == a
  {
    hide Xor;
    XorZero(a);
    assert [a][..0] == [];
  }

  /** A bit of the checksum is set exactly if it is set in an odd number of bytes. */
  lemma {:induction false} ChecksumDigit(s: Bytes, k: nat)
    ensures Digit(Checksum(0, s) as nat, k) == SetIn(s, k) % 2
    decreases |s|
  {
    if s == [] {
      ShrZero(k);
    } else {
      var init := s[..|s| - 1];
      ChecksumDigit(init, k);
      XorDigit(Checksum(0, init), s[|s| - 1], k);
      hide Xor, Digit;
    }
  }

  /** The number of bytes in which a bit is set. */
  function SetIn(s: Bytes, k: nat): nat {
    if s == [] then 0 else SetIn(s[..|s| - 1], k) + Digit(s[|s| - 1] as nat, k)
  }

  /** Changing any one byte changes the checksum. */
  lemma {:induction false} ChangedByte(cs: byte, s: Bytes, k: nat, b: byte)
    requires k < |s| && b != s[k]
    ensures Checksum(cs, s[k := b]) != Checksum(cs, s)
    decreases |s|
  {
    hide Xor;
    var n := |s| - 1;
    var t := s[k := b];
    if k == n {
      assert t[..n] == s[..n];
      XorCancels(b, s[n], Checksum(cs, s[..n]));
    } else {
      assert t[..n] == s[..n][k := b];
      ChangedByte(cs, s[..n], k, b);
      XorCancels(Checksum(cs, t[..n]), Checksum(cs, s[..n]), s[n]);
    }
  }

  /** The bytes of a body without its stuffing pass the check exactly if their checksum is 0. */
  lemma PassesIfZero(u: Bytes)
    requires |u| >= 1
    ensures u[|u| - 1] == Checksum(0, u[..|u| - 1]) <==> Checksum(0, u) == 0
  {
    hide Xor;
    var cs := Checksum(0, u[..|u| - 1]);
    XorZero(cs);
    XorCancels(u[|u| - 1], cs, cs);
  }

  /** A body that differs from a valid one in one byte, not counting the stuffing, is refused. */
  lemma DamageDetected(body: Bytes, damaged: Bytes, u: Bytes, k: nat, b: byte)
    requires Content(body).Some? && Unescape([], body) == Some(u) && k < |u| && b != u[k]
    requires Unescape([], damaged) == Some(u[k := b])
    ensures Content(damaged) == None
  {
    hide Xor, Unescape, Checksum;
    PassesIfZero(u);
    PassesIfZero(u[k := b]);
    ChangedByte(0, u, k, b);
  }

  /** So a frame in which one byte of the payload or the checksum was exchanged is never delivered. */
  lemma DamagedFrameRefused(payload: Bytes, k: nat, b: byte)
    requires var u := payload + [Checksum(0, payload)]; k < |u| && b != u[k]
    ensures Content(EscapeAll((payload + [Checksum(0, payload)])[k := b])) == None
  {
    hide Xor, Unescape, Checksum, Content, EscapeAll;
    var u := payload + [Checksum(0, payload)];
    ContentOfBody(payload);
    UnescapeWhole(u);
    UnescapeWhole(u[k := b]);
    DamageDetected(Body(payload), EscapeAll(u[k := b]), u, k, b);
  }

  lemma UnescapeWhole(u: Bytes)
    ensures Unescape([], EscapeAll(u)) == Some(u)
  {
    UnescapeEscapeAll([], u, []);
    assert EscapeAll(u) + [] == EscapeAll(u) && [] + u == u;
  }

  // --- frames byte by byte ---

  /** Frames of one byte: a plain one, the marker, and the escape byte. */
  lemma KnownFrames()
    ensures Frame([0x05]) == [0x7E, 0x05, 0x05, 0x7E]
    ensures Frame([0x7E]) == [0x7E, 0x7D, 0x02, 0x7D, 0x02, 0x7E]
    ensures Frame([0x7D]) == [0x7E, 0x7D, 0x01, 0x7D, 0x01, 0x7E]
  {
    hide Checksum;
    OneByteFrame(0x05);
    OneByteFrame(0x7E);
    OneByteFrame(0x7D);
  }

  lemma OneByteFrame(b: byte)
    ensures Frame([b]) == [MARKER] + (Escape(b) + Escape(b)) + [MARKER]
  {
    hide Checksum, Escape;
    ChecksumOfOne(b);
    EscapeAllOne(b);
    EscapeAllSnoc([b], b);
    assert [b] + [b] == [b, b];
  }
}
