/** Signal extraction of app/base/can/can_dbc.c: shifting and masking a 64-bit word reads the integer that the
    signal's bits spell, in either byte order. */
module CanExtract {
  import opened Basics
  import opened BitOps
  import opened CanDbc

  // --- loading and reversing the eight bytes ---

  lemma {:induction false} LoadDigit(data: Bytes, i: nat)
    requires i < 8 * |data|
    ensures Digit(Load(data), i) == BitAt(data, i)
  {
    hide Digit, Shr, Low;
    assert Pow2(8) == 0x100 by {
      Powers();
    }
    hide Pow2;
    var first, rest := data[0] as nat, Load(data[1..]);
    if i < 8 {
      DigitOfSum(first, rest, 8, i);
    } else {
      SplitUnique(first, rest, 8);
      DigitOfShr(Load(data), 8, i - 8);
      LoadDigit(data[1..], i - 8);
    }
  }

  /** The two halves of a word, put back in exchanged places. */
  lemma Exchange(low: nat, high: nat, n: nat)
    requires low < Pow2(n) && high < Pow2(n)
    ensures BitOr(high, Shl(low, n, 2 * n)) == high + Pow2(n) * low
    ensures high + Pow2(n) * low < Pow2(2 * n)
  {
    PowAdd(n, n);
    Below(high, low, Pow2(n));
    SplitUnique(low * Pow2(n), 0, 2 * n);
    OrDisjoint(high, low, n);
  }

  lemma Below(low: nat, high: nat, p: nat)
    requires low < p && high < p
    ensures low + p * high < p * p
  {
    assert p * high <= p * (p - 1);
  }

  lemma Rev16Swaps(b0: nat, b1: nat)
    requires b0 < 0x100 && b1 < 0x100
    ensures Rev16(b0 + 0x100 * b1) == b1 + 0x100 * b0
  {
    hide BitOr, Shr, Low;
    hide Pow2;
    Powers();
    var d := b0 + 0x100 * b1;
    SplitUnique(b0, b1, 8);
    Exchange(b0, b1, 8);
    SplitUnique(0x100 * b0, b1, 16);
    SplitUnique(0x100 * b0, 0, 16);
    assert d * 0x100 == 0x100 * b0 + 0x1_0000 * b1;
  }

  lemma Rev32Swaps(low: nat, high: nat)
    requires low < 0x1_0000 && high < 0x1_0000 && Rev16(low) < 0x1_0000 && Rev16(high) < 0x1_0000
    ensures Rev32(low + 0x1_0000 * high) == Rev16(high) + 0x1_0000 * Rev16(low)
  {
    hide BitOr, Shr, Low, Rev16, Shl;
    Powers();
    SplitUnique(low, high, 16);
    Exchange(Rev16(low), Rev16(high), 16);
  }

  lemma Rev64Swaps(low: nat, high: nat)
    requires low < 0x1_0000_0000 && high < 0x1_0000_0000
    requires Rev32(low) < 0x1_0000_0000 && Rev32(high) < 0x1_0000_0000
    ensures Rev64(low + 0x1_0000_0000 * high) == Rev32(high) + 0x1_0000_0000 * Rev32(low)
  {
    hide BitOr, Shr, Low, Rev32, Shl;
    Powers();
    SplitUnique(low, high, 32);
    Exchange(Rev32(low), Rev32(high), 32);
  }

  lemma Rev32Bytes(b0: nat, b1: nat, b2: nat, b3: nat)
    requires b0 < 0x100 && b1 < 0x100 && b2 < 0x100 && b3 < 0x100
    ensures Rev32(b0 + 0x100 * b1 + 0x1_0000 * (b2 + 0x100 * b3)) == b3 + 0x100 * b2 + 0x1_0000 * (b1 + 0x100 * b0)
  {
    hide Rev32, Rev16;
    Rev16Swaps(b0, b1);
    Rev16Swaps(b2, b3);
    Rev32Swaps(b0 + 0x100 * b1, b2 + 0x100 * b3);
  }

  function Reversed(data: Bytes): (r: Bytes)
    ensures |r| == |data|
  {
    seq(|data|, k requires 0 <= k < |data| => data[|data| - 1 - k])
  }

  lemma LoadEight(d: Bytes)
    requires |d| == 8
    ensures Load(d) == d[0] as nat + 0x100 * d[1] as nat + 0x1_0000 * (d[2] as nat + 0x100 * d[3] as nat)
      + 0x1_0000_0000 * (d[4] as nat + 0x100 * d[5] as nat + 0x1_0000 * (d[6] as nat + 0x100 * d[7] as nat))
  {
    assert Load(d) == d[0] as nat + 0x100 * Load(d[1..]);
    assert d[1..][1..] == d[2..] && d[2..][1..] == d[3..] && d[3..][1..] == d[4..];
    assert d[4..][1..] == d[5..] && d[5..][1..] == d[6..] && d[6..][1..] == d[7..] && d[7..][1..] == [];
    assert Load(d[7..]) == d[7] as nat;
    assert Load(d[6..]) == d[6] as nat + 0x100 * Load(d[7..]);
    assert Load(d[5..]) == d[5] as nat + 0x100 * Load(d[6..]);
    assert Load(d[4..]) == d[4] as nat + 0x100 * Load(d[5..]);
    assert Load(d[3..]) == d[3] as nat + 0x100 * Load(d[4..]);
    assert Load(d[2..]) == d[2] as nat + 0x100 * Load(d[3..]);
    assert Load(d[1..]) == d[1] as nat + 0x100 * Load(d[2..]);
  }

  /** REV64 of the loaded frame is the frame loaded backwards. */
  lemma RevLoads(data: Bytes)
    requires |data| == 8
    ensures Rev64(Load(data)) == Load(Reversed(data))
  {
    hide Rev64, Rev32, Load;
    var d, r := data, Reversed(data);
    LoadEight(d);
    LoadEight(r);
    Rev32Bytes(d[0] as nat, d[1] as nat, d[2] as nat, d[3] as nat);
    Rev32Bytes(d[4] as nat, d[5] as nat, d[6] as nat, d[7] as nat);
    Rev64Swaps(d[0] as nat + 0x100 * d[1] as nat + 0x1_0000 * (d[2] as nat + 0x100 * d[3] as nat),
               d[4] as nat + 0x100 * d[5] as nat + 0x1_0000 * (d[6] as nat + 0x100 * d[7] as nat));
  }

  // --- where the bits of a signal are in the word ---

  /** The place of a frame bit in the reversed word. */
  function Place(index: nat): int {
    56 - index / 8 * 8 + index % 8
  }

  lemma ReversedDigit(data: Bytes, index: nat)
    requires |data| == 8 && index < 64
    ensures 0 <= Place(index) < 64 && Digit(Load(Reversed(data)), Place(index)) == BitAt(data, index)
  {
    hide Digit;
    LoadDigit(Reversed(data), Place(index));
    assert Place(index) / 8 == 7 - index / 8 && Place(index) % 8 == index % 8;
  }

  lemma {:induction false} MotorolaPlaces(start: nat, size: nat, k: nat)
    requires k < size
    ensures Place(MotorolaBits(start, size)[k]) == Place(start) - k
    decreases size
  {
    hide Place, NextBit;
    if k > 0 {
      MotorolaPlaces(NextBit(start), size - 1, k - 1);
      PlaceNext(start);
    }
  }

  lemma PlaceNext(index: nat)
    ensures Place(NextBit(index)) == Place(index) - 1
  {
    var b, i := index / 8, index % 8;
    if i == 0 {
      assert (index + 15) / 8 == b + 1 && (index + 15) % 8 == 7;
    } else {
      assert (index - 1) / 8 == b && (index - 1) % 8 == i - 1;
    }
  }

  /** The field of n at lo spells the bits, most significant first. */
  ghost predicate Spells(data: Bytes, bits: seq<nat>, n: nat, lo: nat)
    requires |data| == 8 && InFrame(bits)
  {
    forall k :: 0 <= k < |bits| ==> BitAt(data, bits[k]) == Digit(n, lo + |bits| - 1 - k)
  }

  lemma {:induction false} FieldIsSpelled(data: Bytes, bits: seq<nat>, n: nat, lo: nat)
    requires |data| == 8 && InFrame(bits) && Spells(data, bits, n, lo)
    ensures Low(Shr(n, lo), |bits|) == Spelled(data, bits)
    decreases |bits|
  {
    hide Digit, BitAt;
    if bits != [] {
      var init := bits[..|bits| - 1];
      assert Spells(data, init, n, lo + 1) by {
        forall k | 0 <= k < |init| ensures BitAt(data, init[k]) == Digit(n, lo + 1 + |init| - 1 - k) {
          assert init[k] == bits[k];
        }
      }
      FieldIsSpelled(data, init, n, lo + 1);
      HalfOfShr(n, lo);
      assert BitAt(data, bits[|bits| - 1]) == Digit(n, lo);
    }
  }

  lemma HalfOfShr(n: nat, lo: nat)
    ensures Shr(n, lo) / 2 == Shr(n, lo + 1) && Shr(n, lo) % 2 == Digit(n, lo)
  {
    ShrShr(n, lo, 1);
    assert Shr(Shr(n, lo), 1) == Shr(Shr(n, lo) / 2, 0);
  }

  // --- sign extension ---

  /** The bits above the signal that the source fills with ones. */
  lemma HighOnes(size: nat)
    requires size <= 64
    ensures Shl(Pow2(64) - 1, size, 64) == Pow2(size) * (Pow2(64 - size) - 1) == Pow2(64) - Pow2(size)
  {
    hide Low, Pow2;
    PowAdd(size, 64 - size);
    var p, q := Pow2(size), Pow2(64 - size);
    var all := p * q;
    assert all == Pow2(64);
    Distribute(p, q, all);
    SplitUnique(all - p, p - 1, 64);
  }

  lemma Distribute(p: nat, q: nat, all: nat)
    requires all == p * q && p > 0 && q > 0
    ensures p * (q - 1) == all - p && 0 <= all - p < all
    ensures (all - 1) * p == (all - p) + all * (p - 1)
  {
    assert p <= all by {
      assert p * (q - 1) >= 0;
    }
    assert all * (p - 1) == all * p - all;
    assert (all - 1) * p == all * p - p;
  }

  lemma SignExtended(v: nat, size: nat)
    requires 0 < size < 64 && v < Pow2(size)
    ensures ToInt64(v) == v
    ensures Digit(v, size - 1) == 1 ==> ToInt64(BitOr(v, Shl(Pow2(64) - 1, size, 64))) == v - Pow2(size)
  {
    hide BitOr, Shl, Digit;
    PowGrows(size, 63);
    if Digit(v, size - 1) == 1 {
      HighOnes(size);
      OrDisjoint(v, Pow2(64 - size) - 1, size);
    }
  }

  // --- the extraction ---

  /** Where the extraction looks, and that the field there spells the signal. */
  lemma SignalField(s: Signal, data: Bytes)
    requires |data| == 8 && !SigOverflow(s.order, s.start, s.size)
    ensures InFrame(BitsOf(s))
    ensures s.order == '1' ==> Spells(data, BitsOf(s), Load(data), s.start)
    ensures s.order == '0' ==> MotorolaShift(s) >= 0 && Spells(data, BitsOf(s), Rev64(Load(data)), MotorolaShift(s))
  {
    hide Digit, BitAt, Rev64, Load, Reversed;
    AcceptsWhatFits(s);
    var bits := BitsOf(s);
    if s.order == '1' {
      forall k | 0 <= k < s.size ensures BitAt(data, bits[k]) == Digit(Load(data), s.start + s.size - 1 - k) {
        LoadDigit(data, bits[k]);
      }
    } else {
      RevLoads(data);
      forall k | 0 <= k < s.size
        ensures BitAt(data, bits[k]) == Digit(Rev64(Load(data)), MotorolaShift(s) + s.size - 1 - k)
      {
        MotorolaPlaces(s.start, s.size, k);
        ReversedDigit(data, bits[k]);
      }
    }
  }

  /** For every accepted signal of fewer than 64 bits the value is the integer that its bits spell, as an
      unsigned number or, for sign '-', in two's complement. */
  lemma ExtractsSpelled(s: Signal, data: Bytes)
    requires |data| == 8 && !SigOverflow(s.order, s.start, s.size) && s.size < 64
    ensures InFrame(BitsOf(s))
    ensures RawValue(s, data) == if s.sign == '-' then SpelledSigned(data, BitsOf(s)) else Spelled(data, BitsOf(s))
  {
    hide Digit, BitAt, Rev64, Load, Shl, BitOr, BitAnd, Low, Shr, ToInt64, Pow2;
    SignalField(s, data);
    var bits := BitsOf(s);
    var n, lo := if s.order == '1' then Load(data) else Rev64(Load(data)),
                 if s.order == '1' then s.start else MotorolaShift(s);
    FieldIsSpelled(data, bits, n, lo);
    AndMask(Shr(n, lo), s.size);
    var raw := Low(Shr(n, lo), s.size);
    AndOne(raw, s.size - 1);
    DigitOfLow(Shr(n, lo), s.size, s.size - 1);
    DigitOfShr(n, lo, s.size - 1);
    assert BitAt(data, bits[0]) == Digit(raw, s.size - 1);
    SignExtended(raw, s.size);
    SignTest(Pow2(s.size - 1), Digit(raw, s.size - 1));
  }

  lemma SignTest(p: nat, d: nat)
    requires p > 0 && d < 2
    ensures p * d != 0 <==> d == 1
  {
  }
}
