/** The ring buffer of mid/ringbuffer/ring_buffer.c: two free-running 32-bit indices over a buffer whose
    size is a power of two, refining a bounded FIFO of bytes. */
module RingBuffer {
  import opened Basics
  import opened WordArith
  import opened BitOps

  function Minus(a: word, b: word): word {
    ((a as int - b as int) % 0x1_0000_0000) as word
  }

  /** The macro `is_power_of_2`. */
  predicate IsPowerOf2(x: nat) {
    x != 0 && BitAnd(x, x - 1) == 0
  }

  /** The test of the macro holds exactly of the powers of two. */
  lemma {:induction false} PowerTest(x: nat)
    ensures IsPowerOf2(x) <==> exists n: nat :: x == Pow2(n)
  {
    if IsPowerOf2(x) {
      var n := Exponent(x);
    }
    if n: nat :| x == Pow2(n) {
      MaskOfPower(n);
    }
  }

  lemma {:induction false} Exponent(x: nat) returns (n: nat)
    requires IsPowerOf2(x)
    ensures x == Pow2(n)
  {
    if x == 1 {
      n := 0;
    } else {
      assert x % 2 == 0 by {
        if x % 2 == 1 {
          assert (x - 1) / 2 == x / 2;
          SelfMask(x / 2);
        }
      }
      assert (x - 1) / 2 == x / 2 - 1;
      n := Exponent(x / 2);
      n := n + 1;
    }
  }

  lemma {:induction false} SelfMask(x: nat)
    ensures BitAnd(x, x) == x
  {
    if x > 0 {
      SelfMask(x / 2);
    }
  }

  lemma {:induction false} MaskOfPower(n: nat)
    ensures BitAnd(Pow2(n), Pow2(n) - 1) == 0
  {
    AndMask(Pow2(n), n);
    SplitUnique(0, 1, n);
  }

  /** The k-th cell after p in a buffer of the given size. */
  function Cell(p: nat, k: nat, size: nat): (c: int)
    requires p < size && k <= size
    ensures 0 <= c < size
  {
    if p + k < size then p + k else p + k - size
  }

  /** A free-running index, masked, moves through the cells in order even when it wraps around. */
  lemma MaskedIndex(start: word, k: nat, n: nat)
    requires n < 32 && k <= Pow2(n)
    ensures Low((start as nat + k) % 0x1_0000_0000, n) == Cell(Low(start as nat, n), k, Pow2(n))
  {
    LowOfSum(start as nat, k, n);
    LowLow(start as nat + k, 32, n);
    LowOfWord(start as nat + k);
  }

  lemma LowOfSum(x: nat, k: nat, n: nat)
    requires k <= Pow2(n)
    ensures Low(x + k, n) == Cell(Low(x, n), k, Pow2(n))
  {
    hide Low, Shr, Pow2;
    var p, q, size := Low(x, n), Shr(x, n), Pow2(n);
    Split(x, n);
    if p + k < size {
      SplitUnique(p + k, q, n);
    } else {
      assert size * (q + 1) == size * q + size;
      SplitUnique(p + k - size, q + 1, n);
    }
  }

  lemma {:induction false} LowLow(x: nat, m: nat, n: nat)
    requires n <= m
    ensures Low(Low(x, m), n) == Low(x, n)
  {
    if n > 0 {
      LowLow(x / 2, m - 1, n - 1);
    }
  }

  lemma LowOfWord(x: nat)
    ensures Low(x, 32) == x % 0x1_0000_0000
  {
    hide Low, Shr, Pow2;
    Powers();
    Split(x, 32);
    var high, low := Shr(x, 32), Low(x, 32);
    assert x == 0x1_0000_0000 * high + low;
    WideSplit(high, low);
  }

  class Ring {
    const buffer: array<byte>
    var size: word
    var index: word   // the field `in`
    var out: word
    ghost var n: nat

    constructor (space: array<byte>)
      ensures buffer == space
    {
      buffer := space;
      size, index, out, n := 0, 0, 0, 0;
    }

    ghost predicate Valid()
      reads this
    {
      n < 32 && size as nat == Pow2(n) <= buffer.Length && Minus(index, out) <= size
    }

    /** `rb_used_len`. */
    function UsedLen(): (u: word)
      reads this
    {
      Minus(index, out)
    }

    /** `rb_unused_len`. */
    function UnusedLen(): (u: word)
      requires Valid()
      reads this
      ensures u == size - UsedLen()
    {
      UnusedIsRest(size, index, out);
      Plus(Minus(size, index), out)
    }

    function Mask(x: word): nat
      reads this
      requires size > 0
    {
      BitAnd(x as nat, size as nat - 1)
    }

    ghost function First(): nat
      reads this
      requires Valid()
    {
      Low(out as nat, n)
    }

    /** The bytes that are in the buffer, oldest first. */
    ghost function Contents(): (c: Bytes)
      requires Valid()
      reads this, buffer
      ensures |c| == UsedLen() as nat
    {
      Stored(buffer[..], First(), UsedLen() as nat, size as nat)
    }

    /** `rb_init`. */
    method Init(length: word) returns (ok: bool)
      requires length as nat <= buffer.Length
      modifies this
      ensures ok <==> exists k: nat :: length as nat == Pow2(k)
      ensures ok ==> Valid() && size == length && Contents() == []
    {
      PowerTest(length as nat);
      if !IsPowerOf2(length as nat) {
        return false;
      }
      size, index, out := length, 0, 0;
      n := Exponent(length as nat);
      SmallExponent(n);
      ok := true;
    }

    /** `rb_in`. */
    method In(data: Bytes) returns (count: nat)
      requires Valid() && |data| < 0x1_0000_0000
      modifies this`index, buffer
      ensures Valid() && count <= |data| && count as int == Min(|data|, size as int - old(UsedLen()) as int)
      ensures Contents() == old(Contents()) + data[..count]
    {
      hide Low, BitAnd, Pow2, Minus, Cell;
      ghost var u, p, before := UsedLen() as nat, First(), buffer[..];
      IndexFromUsed(index, out);
      MaskedIndex(out, u, n);
      AndMask(index as nat, n);
      count := Min(|data|, UnusedLen() as int);
      var at := Mask(index);
      var len := Min(count, size as int - at);
      CopyIn(data[..count], at, len);
      index := Plus(index, count as word);
      UsedGrows(old(index), out, count as word);
      StoredIn(before, buffer[..], p, u, size as nat, data[..count], at, len);
    }

    /** The two copies of `rb_in`. */
    method CopyIn(data: Bytes, at: nat, len: nat)
      requires len <= |data| && |data| - len <= at && at + len <= buffer.Length
      modifies buffer
      ensures Copied(old(buffer[..]), buffer[..], data, at, len)
    {
      forall k | 0 <= k < len { buffer[at + k] := data[k]; }
      forall k | 0 <= k < |data| - len { buffer[k] := data[len + k]; }
    }

    /** `rb_out`. */
    method Out(limit: word) returns (data: Bytes)
      requires Valid()
      modifies this`index, this`out
      ensures Valid() && |data| == Min(limit as int, |old(Contents())|)
      ensures data == old(Contents())[..|data|] && Contents() == old(Contents())[|data|..]
      ensures Contents() == [] ==> index == out == 0
    {
      hide Low, BitAnd, Pow2, Minus, Cell, Stored;
      ghost var u, p := UsedLen() as nat, First();
      var count := Min(limit as int, UsedLen() as int);
      MaskedIndex(out, count, n);
      AndMask(out as nat, n);
      var at := Mask(out);
      var len := Min(count, size as int - at);
      data := buffer[at..at + len] + buffer[..count - len];
      StoredOut(buffer[..], p, u, size as nat, count, data, len);
      UsedShrinks(index, out, count as word);
      out := Plus(out, count as word);
      assert First() == Cell(p, count, size as nat) && UsedLen() as nat == u - count;
      Rewind();
    }

    /** The end of `rb_out`: the indices of an empty buffer start again from 0. */
    method Rewind()
      requires Valid()
      modifies this`index, this`out
      ensures Valid() && Contents() == old(Contents())
      ensures Contents() == [] ==> index == out == 0
    {
      hide Low, BitAnd, Pow2, Minus, Stored;
      UsedEmpty(index, out);
      if index == out {
        index, out := 0, 0;
        UsedEmpty(index, out);
      }
    }
  }

  function Min(a: int, b: int): int {
    if a < b then a else b
  }

  /** The bytes stored in a circle of cells. */
  ghost function Stored(cells: Bytes, p: nat, count: nat, size: nat): (s: Bytes)
    requires p < size <= |cells| && count <= size
    ensures |s| == count
  {
    seq(count, k requires 0 <= k < count => cells[Cell(p, k, size)])
  }

  /** The data stand from a cell on and, behind the end of the circle, from the first cell on. */
  ghost predicate Copied(before: Bytes, after: Bytes, data: Bytes, at: int, len: nat)
    requires len <= |data|
  {
    && |before| == |after|
    && forall k :: 0 <= k < |after| ==>
      after[k] == if k < |data| - len then data[len + k] else if at <= k < at + len then data[k - at] else before[k]
  }

  lemma StoredIn(before: Bytes, after: Bytes, p: nat, u: nat, size: nat, data: Bytes, at: int, len: nat)
    requires p < size <= |before| == |after| && u + |data| <= size
    requires at == Cell(p, u, size) && len == Min(|data|, size - at)
    requires Copied(before, after, data, at, len)
    ensures Stored(after, p, u + |data|, size) == Stored(before, p, u, size) + data
  {
  }

  lemma StoredOut(cells: Bytes, p: nat, u: nat, size: nat, count: nat, data: Bytes, len: nat)
    requires p < size <= |cells| && count <= u <= size && len == Min(count, size - p)
    requires data == cells[p..p + len] + cells[..count - len]
    ensures data == Stored(cells, p, u, size)[..count]
    ensures Stored(cells, Cell(p, count, size), u - count, size) == Stored(cells, p, u, size)[count..]
  {
  }

  lemma IndexFromUsed(index: word, out: word)
    ensures (out as nat + Minus(index, out) as nat) % 0x1_0000_0000 == index as nat
  {
  }

  lemma UnusedIsRest(size: word, index: word, out: word)
    requires Minus(index, out) <= size
    ensures Plus(Minus(size, index), out) == size - Minus(index, out)
  {
  }

  lemma UsedGrows(index: word, out: word, count: word)
    requires Minus(index, out) as nat + count as nat < 0x1_0000_0000
    ensures Minus(Plus(index, count), out) == Minus(index, out) + count
  {
  }

  lemma UsedShrinks(index: word, out: word, count: word)
    requires count <= Minus(index, out)
    ensures Minus(index, Plus(out, count)) == Minus(index, out) - count
  {
  }

  lemma UsedEmpty(index: word, out: word)
    ensures Minus(index, out) == 0 <==> index == out
  {
  }

  lemma SmallExponent(n: nat)
    requires Pow2(n) < 0x1_0000_0000
    ensures n < 32
  {
    if n >= 32 {
      Powers();
      PowGrows(32, n);
    }
  }

  // --- any interleaving of calls ---

  datatype Op = Put(data: Bytes) | Take(limit: word)

  /** Over any run the bytes that came out, followed by those still inside, are the bytes that were
      accepted, in order; and never more than size bytes are inside. */
  method Drive(ring: Ring, ops: seq<Op>) returns (accepted: Bytes, delivered: Bytes)
    requires ring.Valid() && ring.Contents() == []
    requires forall k :: 0 <= k < |ops| && ops[k].Put? ==> |ops[k].data| < 0x1_0000_0000
    modifies ring, ring.buffer
    ensures ring.Valid() && accepted == delivered + ring.Contents() && |ring.Contents()| <= ring.size as int
  {
    hide Minus, Stored;
    accepted, delivered := [], [];
    for k := 0 to |ops|
      invariant ring.Valid() && accepted == delivered + ring.Contents()
    {
      match ops[k] {
        case Put(data) =>
          var count := ring.In(data);
          accepted := accepted + data[..count];
        case Take(limit) =>
          var data := ring.Out(limit);
          delivered := delivered + data;
      }
    }
  }
}
