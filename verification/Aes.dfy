/** The static tables of mid/aes_e/aes_e.c and the method that generates them. */
module Aes {
  import opened GaloisField
  import opened Rijndael
  import opened Words
  import opened AesTables

  /** The static tables of the file and the flag that says they have been generated. */
  class Tables {
    var initDone: bool
    const fsb: array<bv8>
    const rsb: array<bv8>
    const ft0: array<bv32>
    const ft1: array<bv32>
    const ft2: array<bv32>
    const ft3: array<bv32>
    const rt0: array<bv32>
    const rt1: array<bv32>
    const rt2: array<bv32>
    const rt3: array<bv32>
    const rcon: array<bv32>

    ghost const Repr: set<object> :=
      {fsb as object, rsb as object, ft0 as object, ft1 as object, ft2 as object, ft3 as object,
       rt0 as object, rt1 as object, rt2 as object, rt3 as object, rcon as object}

    constructor ()
      ensures Shaped() && !initDone && fresh(this) && fresh(Repr)
    {
      initDone := false;
      fsb := new bv8[256](_ => 0);
      rsb := new bv8[256](_ => 0);
      ft0 := new bv32[256](_ => 0);
      ft1 := new bv32[256](_ => 0);
      ft2 := new bv32[256](_ => 0);
      ft3 := new bv32[256](_ => 0);
      rt0 := new bv32[256](_ => 0);
      rt1 := new bv32[256](_ => 0);
      rt2 := new bv32[256](_ => 0);
      rt3 := new bv32[256](_ => 0);
      rcon := new bv32[10](_ => 0);
    }

    /** Eleven different arrays of the declared lengths. */
    ghost predicate Shaped() {
      && fsb.Length == 256 && rsb.Length == 256 && fsb != rsb
      && ft0.Length == 256 && ft1.Length == 256 && ft2.Length == 256 && ft3.Length == 256
      && rt0.Length == 256 && rt1.Length == 256 && rt2.Length == 256 && rt3.Length == 256
      && rcon.Length == 10
      && ft0 != ft1 && ft0 != ft2 && ft0 != ft3 && ft0 != rt0 && ft0 != rt1 && ft0 != rt2 && ft0 != rt3
      && ft1 != ft2 && ft1 != ft3 && ft1 != rt0 && ft1 != rt1 && ft1 != rt2 && ft1 != rt3
      && ft2 != ft3 && ft2 != rt0 && ft2 != rt1 && ft2 != rt2 && ft2 != rt3
      && ft3 != rt0 && ft3 != rt1 && ft3 != rt2 && ft3 != rt3
      && rt0 != rt1 && rt0 != rt2 && rt0 != rt3 && rt1 != rt2 && rt1 != rt3 && rt2 != rt3
      && rcon != ft0 && rcon != ft1 && rcon != ft2 && rcon != ft3
      && rcon != rt0 && rcon != rt1 && rcon != rt2 && rcon != rt3
    }

    ghost predicate Generated()
      reads Repr
    {
      && SBoxTable(fsb[..]) && InvSBoxTable(rsb[..]) && RoundConstants(rcon[..])
      && ForwardTable(ft0[..], 0) && ForwardTable(ft1[..], 1) && ForwardTable(ft2[..], 2) && ForwardTable(ft3[..], 3)
      && ReverseTable(rt0[..], 0) && ReverseTable(rt1[..], 1) && ReverseTable(rt2[..], 2) && ReverseTable(rt3[..], 3)
    }

    ghost predicate Valid()
      reads this, Repr
    {
      Shaped() && (initDone ==> Generated())
    }

    /** The whole of `aes_gen_tables`. */
    method GenTables()
      requires Shaped()
      modifies Repr
      ensures Generated()
    {
      hide Pow3, PowerTable, LogTable, SBoxTable, InvSBoxTable, RoundConstants, ForwardTable, ReverseTable;
      var pow := new bv8[256](_ => 0);
      var log := new int[256](_ => 0);
      GenPowers(pow, log);
      GenRoundConstants();
      GenSBoxes(pow, log);
      GenForwardAndReverse(pow, log);
    }

    /** Powers and logarithms to the base 3; the entry of 1 is written twice and ends as 255. */
    static method GenPowers(pow: array<bv8>, log: array<int>)
      requires pow.Length == 256 && log.Length == 256 && pow as object != log as object
      modifies pow, log
      ensures PowerTable(pow[..]) && LogTable(log[..])
    {
      hide LogEntry, Xtime, Add;
      var x: bv8 := 1;
      for i := 0 to 256
        invariant x == Pow3(i)
        invariant forall j: nat :: j < i ==> pow[j] == Pow3(j)
        invariant forall j: nat :: j < i ==> LogEntry(log[..], Pow3(j))
      {
        ghost var before := log[..];
        pow[i] := x;
        log[x as int] := i;
        assert log[..] == before[x as int := i];
        forall j: nat | j <= i ensures LogEntry(log[..], Pow3(j)) {
          LogExtends(before, x, i, Pow3(j));
        }
        x := Times3(x);
      }
      LogTableComplete(log[..]);
    }

    method GenRoundConstants()
      requires Shaped()
      modifies rcon
      ensures RoundConstants(rcon[..])
    {
      var x: bv8 := 1;
      for i := 0 to 10
        invariant x == PowerOfX(i)
        invariant forall j :: 0 <= j < i ==> rcon[j] == Pack(Rcon(j + 1))
      {
        rcon[i] := x as bv32;
        x := Xtime(x);
      }
    }

    method GenSBoxes(pow: array<bv8>, log: array<int>)
      requires Shaped() && PowerTable(pow[..]) && LogTable(log[..])
      requires pow as object !in Repr && log as object !in Repr
      modifies fsb, rsb
      ensures SBoxTable(fsb[..]) && InvSBoxTable(rsb[..])
    {
      hide Affine, Pow3, Mul, SBoxUpTo, InvSBoxUpTo, InvSBoxTable, InvSubByte;
      SBoxStart(fsb[..], rsb[..]);
      fsb[0x00] := 0x63;
      rsb[0x63] := 0x00;
      assert fsb[..] == old(fsb[..])[0 := 0x63];
      assert rsb[..] == old(rsb[..])[0x63 := 0];
      for i := 1 to 256
        invariant SBoxUpTo(fsb[..], i) && InvSBoxUpTo(rsb[..], i)
      {
        var x := InverseEntry(i, pow, log);
        x := RotateAndSum(x);
        assert x == SubByte(ByteOf(i));
        SBoxExtends(fsb[..], i, ByteOf(i));
        InvSBoxExtends(rsb[..], i, ByteOf(i));
        ghost var f, r := fsb[..], rsb[..];
        fsb[i] := x;
        rsb[x as int] := ByteOf(i);
        assert fsb[..] == f[i := x];
        assert rsb[..] == r[x as int := ByteOf(i)];
      }
      InvSBoxComplete(rsb[..]);
    }

    static method InverseEntry(i: nat, pow: array<bv8>, log: array<int>) returns (x: bv8)
      requires 0 < i < 256 && PowerTable(pow[..]) && LogTable(log[..])
      ensures x == Inverse(ByteOf(i))
    {
      hide Pow3, Mul;
      assert LogEntry(log[..], ByteOf(i));
      x := pow[255 - log[i]];
      InverseByLog(ByteOf(i), log[i]);
    }

    /** The rotations of one S-box entry. */
    static method RotateAndSum(inverse: bv8) returns (x: bv8)
      ensures x == Affine(inverse)
    {
      x := inverse;
      var y := x;
      y := (y << 1) | (y >> 7);
      x := x ^ y;
      y := (y << 1) | (y >> 7);
      x := x ^ y;
      y := (y << 1) | (y >> 7);
      x := x ^ y;
      y := (y << 1) | (y >> 7);
      x := x ^ (y ^ 0x63);
    }

    method GenForwardAndReverse(pow: array<bv8>, log: array<int>)
      requires Shaped() && PowerTable(pow[..]) && LogTable(log[..])
      requires pow as object !in Repr && log as object !in Repr
      requires SBoxTable(fsb[..]) && InvSBoxTable(rsb[..])
      modifies ft0, ft1, ft2, ft3, rt0, rt1, rt2, rt3
      ensures ForwardTable(ft0[..], 0) && ForwardTable(ft1[..], 1) && ForwardTable(ft2[..], 2) && ForwardTable(ft3[..], 3)
      ensures ReverseTable(rt0[..], 0) && ReverseTable(rt1[..], 1) && ReverseTable(rt2[..], 2) && ReverseTable(rt3[..], 3)
    {
      hide Mul, Pack, MixColumn, InvMixColumn, SubByte, InvSubByte, ByteInRow, PowerTable, LogTable, SBoxTable, InvSBoxTable;
      for i := 0 to 256
        invariant ForwardUpTo(ft0[..], 0, i) && ForwardUpTo(ft1[..], 1, i)
        invariant ForwardUpTo(ft2[..], 2, i) && ForwardUpTo(ft3[..], 3, i)
        invariant ReverseUpTo(rt0[..], 0, i) && ReverseUpTo(rt1[..], 1, i)
        invariant ReverseUpTo(rt2[..], 2, i) && ReverseUpTo(rt3[..], 3, i)
      {
        GenForwardEntry(i);
        GenReverseEntry(i, pow, log);
      }
    }

    /** One pass of the last loop, up to the reverse tables. */
    method GenForwardEntry(i: nat)
      requires i < 256 && Shaped() && SBoxTable(fsb[..])
      requires ForwardUpTo(ft0[..], 0, i) && ForwardUpTo(ft1[..], 1, i)
      requires ForwardUpTo(ft2[..], 2, i) && ForwardUpTo(ft3[..], 3, i)
      modifies ft0, ft1, ft2, ft3
      ensures ForwardUpTo(ft0[..], 0, i + 1) && ForwardUpTo(ft1[..], 1, i + 1)
      ensures ForwardUpTo(ft2[..], 2, i + 1) && ForwardUpTo(ft3[..], 3, i + 1)
    {
      hide Xtime, Add, Mul, Pack, XorWord, MixColumn, SubByte, ByteInRow, Rotl8, ForwardUpTo, SBoxTable;
      var x := fsb[i];
      SBoxLookup(fsb[..], i);
      ghost var c := ByteOf(i);
      var y := Xtime(x);
      var z := Add(y, x);
      var t := XorWord(y, x, x, z);
      ForwardEntry(x, y, z, t);
      ForwardExtends(ft0[..], 0, i, c, t);
      ForwardExtends(ft1[..], 1, i, c, Rotl8(t));
      ForwardExtends(ft2[..], 2, i, c, Rotl8(Rotl8(t)));
      ForwardExtends(ft3[..], 3, i, c, Rotl8(Rotl8(Rotl8(t))));
      ft0[i] := t;
      ft1[i] := Rotl8(ft0[i]);
      ft2[i] := Rotl8(ft1[i]);
      ft3[i] := Rotl8(ft2[i]);
      assert ft0[..] == old(ft0[..])[i := t];
      assert ft1[..] == old(ft1[..])[i := Rotl8(t)];
      assert ft2[..] == old(ft2[..])[i := Rotl8(Rotl8(t))];
      assert ft3[..] == old(ft3[..])[i := Rotl8(Rotl8(Rotl8(t)))];
    }

    /** The rest of the pass. */
    method GenReverseEntry(i: nat, pow: array<bv8>, log: array<int>)
      requires i < 256 && Shaped() && InvSBoxTable(rsb[..]) && PowerTable(pow[..]) && LogTable(log[..])
      requires ReverseUpTo(rt0[..], 0, i) && ReverseUpTo(rt1[..], 1, i)
      requires ReverseUpTo(rt2[..], 2, i) && ReverseUpTo(rt3[..], 3, i)
      modifies rt0, rt1, rt2, rt3
      ensures ReverseUpTo(rt0[..], 0, i + 1) && ReverseUpTo(rt1[..], 1, i + 1)
      ensures ReverseUpTo(rt2[..], 2, i + 1) && ReverseUpTo(rt3[..], 3, i + 1)
    {
      hide Xtime, Mul, Pack, XorWord, InvMixColumn, InvSubByte, ByteInRow, Rotl8, ReverseUpTo, PowerTable, LogTable, InvSBoxTable;
      var x := rsb[i];
      InvSBoxLookup(rsb[..], i);
      ghost var c := ByteOf(i);
      var e := LogMul(pow, log, 0x0E, x);
      var n := LogMul(pow, log, 0x09, x);
      var d := LogMul(pow, log, 0x0D, x);
      var b := LogMul(pow, log, 0x0B, x);
      var t := XorWord(e, n, d, b);
      ReverseEntry(x, t);
      ReverseExtends(rt0[..], 0, i, c, t);
      ReverseExtends(rt1[..], 1, i, c, Rotl8(t));
      ReverseExtends(rt2[..], 2, i, c, Rotl8(Rotl8(t)));
      ReverseExtends(rt3[..], 3, i, c, Rotl8(Rotl8(Rotl8(t))));
      rt0[i] := t;
      rt1[i] := Rotl8(rt0[i]);
      rt2[i] := Rotl8(rt1[i]);
      rt3[i] := Rotl8(rt2[i]);
      assert rt0[..] == old(rt0[..])[i := t];
      assert rt1[..] == old(rt1[..])[i := Rotl8(t)];
      assert rt2[..] == old(rt2[..])[i := Rotl8(Rotl8(t))];
      assert rt3[..] == old(rt3[..])[i := Rotl8(Rotl8(Rotl8(t)))];
    }

    /** The macro MUL: multiplication through the logarithm tables. */
    static method LogMul(pow: array<bv8>, log: array<int>, x: bv8, y: bv8) returns (p: bv8)
      requires PowerTable(pow[..]) && LogTable(log[..])
      ensures p == Mul(x, y)
    {
      hide Mul, Pow3;
      if x != 0 && y != 0 {
        assert LogEntry(log[..], x) && LogEntry(log[..], y);
        p := pow[(log[x as int] + log[y as int]) % 255];
        ProductByLog(log[x as int], log[y as int]);
      } else {
        p := 0;
        MulZero(x);
        MulZero(y);
      }
    }
  }
}
