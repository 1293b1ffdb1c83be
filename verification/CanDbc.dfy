/** Signal layout of app/base/can/can_dbc.c: the bits of a signal in either byte order, the integer they
    spell, and which signals fit into an eight-byte frame. */
module CanDbc {
  import opened Basics
  import opened BitOps

  // --- the layout of a signal, bit by bit ---

  /** A bit of a frame, numbered 8 * byte + position within the byte. */
  function BitAt(data: Bytes, index: nat): nat
    requires index / 8 < |data|
  {
    Digit(data[index / 8] as nat, index % 8)
  }

  /** In Motorola order the bit after bit 0 of a byte is bit 7 of the next byte. */
  function NextBit(index: nat): nat {
    if index % 8 == 0 then index + 15 else index - 1
  }

  /** The positions of a Motorola signal, most significant bit first. */
  function MotorolaBits(start: nat, size: nat): (bits: seq<nat>)
    ensures |bits| == size
    decreases size
  {
    if size == 0 then [] else [start] + MotorolaBits(NextBit(start), size - 1)
  }

  /** The positions of an Intel signal, most significant bit first. */
  function IntelBits(start: nat, size: nat): (bits: seq<nat>)
    ensures |bits| == size
  {
    seq(size, k requires 0 <= k < size => start + size - 1 - k)
  }

  predicate InFrame(bits: seq<nat>) {
    forall k :: 0 <= k < |bits| ==> bits[k] < 64
  }

  /** The number that the bits at these positions spell, most significant first. */
  function Spelled(data: Bytes, bits: seq<nat>): nat
    requires |data| == 8 && InFrame(bits)
  {
    if bits == [] then 0 else 2 * Spelled(data, bits[..|bits| - 1]) + BitAt(data, bits[|bits| - 1])
  }

  /** The same in two's complement. */
  function SpelledSigned(data: Bytes, bits: seq<nat>): int
    requires |data| == 8 && InFrame(bits) && bits != []
  {
    Spelled(data, bits) - if BitAt(data, bits[0]) == 1 then Pow2(|bits|) else 0
  }

  // --- the source ---

  datatype Signal = Signal(order: char, start: int, size: int, sign: char)

  predicate InRange(s: Signal) {
    0 < s.size <= 64 && 0 <= s.start < 64
  }

  /** `dbc_sig_overflow`. */
  function SigOverflow(order: char, start: int, size: int): bool {
    if size <= 0 || size > 64 || start < 0 || start >= 64 then true
    else if order != '0' && order != '1' then true
    else if order == '1' && start + size > 64 then true
    else order == '0' && start / 8 * 16 + 7 - start + size > 64
  }

  /** The shift that the extraction of a Motorola signal computes. */
  function MotorolaShift(s: Signal): int {
    57 - s.start / 8 * 8 + s.start % 8 - s.size
  }

  function BitsOf(s: Signal): seq<nat>
    requires InRange(s)
  {
    if s.order == '1' then IntelBits(s.start, s.size) else MotorolaBits(s.start, s.size)
  }

  function Rev16(d: nat): nat {
    BitOr(Shr(d, 8), Shl(d, 8, 16))
  }

  function Rev32(d: nat): nat {
    BitOr(Rev16(Shr(d, 16)), Shl(Rev16(Low(d, 16)), 16, 32))
  }

  function Rev64(d: nat): nat {
    BitOr(Rev32(Shr(d, 32)), Shl(Rev32(Low(d, 32)), 32, 64))
  }

  /** The eight bytes copied into a 64-bit integer of the little-endian host. */
  function Load(data: Bytes): (v: nat)
  {
    if data == [] then 0 else data[0] as nat + 0x100 * Load(data[1..])
  }

  /** Conversion to a signed 64-bit integer. */
  function ToInt64(x: nat): int {
    if x < Pow2(63) then x else x - Pow2(64)
  }

  /** The value that `dbc_can_callback` scales. */
  function RawValue(s: Signal, data: Bytes): int
    requires |data| == 8 && !SigOverflow(s.order, s.start, s.size) && s.size < 64
  {
    var rawbit := Load(data);
    var revbit := Rev64(rawbit);
    assert s.order == '0' ==> MotorolaShift(s) >= 0;
    var mask := Pow2(s.size) - 1;
    var raw := if s.order == '1' then BitAnd(Shr(rawbit, s.start), mask)
               else BitAnd(Shr(revbit, MotorolaShift(s)), mask);
    var extended := if s.sign == '-' && BitAnd(raw, Pow2(s.size - 1)) != 0
                    then BitOr(raw, Shl(Pow2(64) - 1, s.size, 64)) else raw;
    ToInt64(extended)
  }

  // --- which signals fit ---

  /** How far the bits of a Motorola signal reach: the last one lies in the frame iff the rest of its
      first byte and the bytes after it offer enough bits. */
  lemma {:induction false} MotorolaReach(start: nat, size: nat)
    requires start < 64 && size > 0
    ensures InFrame(MotorolaBits(start, size)) <==> 57 - start / 8 * 8 + start % 8 - size >= 0
    decreases size
  {
    InFrameRest(start, size);
    RoomNext(start);
    if size > 1 {
      if NextBit(start) < 64 {
        MotorolaReach(NextBit(start), size - 1);
      } else {
        assert MotorolaBits(NextBit(start), size - 1)[0] == NextBit(start);
      }
    }
  }

  lemma InFrameRest(start: nat, size: nat)
    requires start < 64 && size > 0
    ensures InFrame(MotorolaBits(start, size)) <==> InFrame(MotorolaBits(NextBit(start), size - 1))
  {
    hide NextBit;
    var bits, rest := MotorolaBits(start, size), MotorolaBits(NextBit(start), size - 1);
    assert forall k :: 0 < k < size ==> bits[k] == rest[k - 1];
    assert forall k :: 0 <= k < size - 1 ==> rest[k] == bits[k + 1];
  }

  /** The number of bits from one on to the end of the frame. */
  lemma RoomNext(start: nat)
    requires start < 64
    ensures NextBit(start) < 64 ==>
      57 - NextBit(start) / 8 * 8 + NextBit(start) % 8 == 57 - start / 8 * 8 + start % 8 - 1
    ensures NextBit(start) >= 64 ==> 57 - start / 8 * 8 + start % 8 == 1
  {
  }

  /** `dbc_sig_overflow` accepts a Motorola signal with start and size in range exactly when the shift of
      its extraction is not negative, and exactly when all its bits lie in the frame. */
  lemma AcceptsWhatFits(s: Signal)
    requires InRange(s)
    ensures s.order == '0' ==> (!SigOverflow(s.order, s.start, s.size) <==> MotorolaShift(s) >= 0)
    ensures s.order == '0' || s.order == '1' ==> (!SigOverflow(s.order, s.start, s.size) <==> InFrame(BitsOf(s)))
  {
    if s.order == '0' {
      MotorolaReach(s.start, s.size);
    } else if s.order == '1' {
      assert BitsOf(s)[0] == s.start + s.size - 1;
    }
  }
}
