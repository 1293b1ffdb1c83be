/** Shifts and bitwise operators of unsigned C integers, written on natural numbers digit by digit. */
module BitOps {

  function Pow2(n: nat): (p: nat)
    ensures p > 0
  {
    if n == 0 then 1 else 2 * Pow2(n - 1)
  }

  /** A right shift by n places. */
  function Shr(x: nat, n: nat): nat {
    if n == 0 then x else Shr(x / 2, n - 1)
  }

  /** The last n digits. */
  function Low(x: nat, n: nat): (r: nat)
    ensures r < Pow2(n)
  {
    if n == 0 then 0 else x % 2 + 2 * Low(x / 2, n - 1)
  }

  /** A left shift of an unsigned integer type of the given width. */
  function Shl(x: nat, n: nat, width: nat): nat {
    Low(x * Pow2(n), width)
  }

  function Digit(x: nat, i: nat): (d: nat)
    ensures d < 2
  {
    Shr(x, i) % 2
  }

  function BitOr(a: nat, b: nat): nat
    decreases a + b
  {
    if a == 0 && b == 0 then 0 else (if a % 2 == 1 || b % 2 == 1 then 1 else 0) + 2 * BitOr(a / 2, b / 2)
  }

  function BitAnd(a: nat, b: nat): nat {
    if a == 0 then 0 else (if a % 2 == 1 && b % 2 == 1 then 1 else 0) + 2 * BitAnd(a / 2, b / 2)
  }

  lemma {:induction false} PowAdd(m: nat, n: nat)
    ensures Pow2(m + n) == Pow2(m) * Pow2(n)
  {
    if m > 0 {
      PowAdd(m - 1, n);
    }
  }

  lemma {:induction false} PowGrows(m: nat, n: nat)
    requires m <= n
    ensures Pow2(m) <= Pow2(n)
  {
    if m < n {
      PowGrows(m, n - 1);
    }
  }

  lemma Powers()
    ensures Pow2(8) == 0x100 && Pow2(16) == 0x1_0000 && Pow2(32) == 0x1_0000_0000
    ensures Pow2(64) == 0x1_0000_0000_0000_0000
  {
    assert Pow2(4) == 16;
    PowAdd(4, 4);
    PowAdd(8, 8);
    PowAdd(16, 16);
    PowAdd(32, 32);
  }

  /** The product of a power of two, one place up. */
  lemma PowTimes(n: nat, h: nat)
    requires n > 0
    ensures Pow2(n) * h == 2 * (Pow2(n - 1) * h)
  {
    Doubled(Pow2(n - 1), h);
  }

  lemma Doubled(p: nat, h: nat)
    ensures 2 * p * h == 2 * (p * h)
  {
  }

  /** One step of taking a number apart, for which products are just numbers. */
  lemma HalfOfSum(low: nat, rest: nat)
    ensures (low + 2 * rest) / 2 == low / 2 + rest && (low + 2 * rest) % 2 == low % 2
  {
  }

  /** A number is put together from its last n digits and the rest. */
  lemma {:induction false} Split(x: nat, n: nat)
    ensures x == Low(x, n) + Pow2(n) * Shr(x, n)
  {
    if n > 0 {
      hide Pow2;
      Split(x / 2, n - 1);
      PowTimes(n, Shr(x, n));
    }
  }

  lemma {:induction false} SplitUnique(low: nat, high: nat, n: nat)
    requires low < Pow2(n)
    ensures Low(low + Pow2(n) * high, n) == low && Shr(low + Pow2(n) * high, n) == high
  {
    if n > 0 {
      var rest := Pow2(n - 1) * high;
      PowTimes(n, high);
      HalfOfSum(low, rest);
      PowHalf(low, n);
      hide Pow2;
      SplitUnique(low / 2, high, n - 1);
    }
  }

  lemma PowHalf(x: nat, n: nat)
    requires n > 0 && x < Pow2(n)
    ensures x / 2 < Pow2(n - 1)
  {
  }

  lemma {:induction false} ShrShr(x: nat, m: nat, n: nat)
    ensures Shr(Shr(x, m), n) == Shr(x, m + n)
  {
    if m > 0 {
      ShrShr(x / 2, m - 1, n);
    }
  }

  lemma {:induction false} LowDigit(x: nat, n: nat)
    ensures Low(x, n + 1) == Low(x, n) + Pow2(n) * Digit(x, n)
  {
    if n == 0 {
      LowFirst(x);
    } else {
      LowDigit(x / 2, n - 1);
      PowTimes(n, Digit(x, n));
      DigitNext(x, n);
      hide Pow2, Digit;
    }
  }

  lemma LowFirst(x: nat)
    ensures Low(x, 0) == 0 && Low(x, 1) == x % 2 && Digit(x, 0) == x % 2 && Pow2(0) == 1
  {
    assert Low(x / 2, 0) == 0;
  }

  lemma DigitNext(x: nat, n: nat)
    requires n > 0
    ensures Digit(x, n) == Digit(x / 2, n - 1)
  {
  }

  lemma {:induction false} OrZero(a: nat)
    ensures BitOr(a, 0) == a
  {
    if a > 0 {
      OrZero(a / 2);
    }
  }

  lemma {:induction false} OrCommutes(a: nat, b: nat)
    ensures BitOr(a, b) == BitOr(b, a)
    decreases a + b
  {
    if a + b > 0 {
      OrCommutes(a / 2, b / 2);
    }
  }

  /** The bitwise or of numbers without a common digit is their sum. */
  lemma {:induction false} OrDisjoint(low: nat, high: nat, n: nat)
    requires low < Pow2(n)
    ensures BitOr(low, Pow2(n) * high) == low + Pow2(n) * high
  {
    if n == 0 {
      OrZero(high);
      OrCommutes(0, high);
    } else {
      PowTimes(n, high);
      HalfOfSum(low, Pow2(n - 1) * high);
      PowHalf(low, n);
      hide Pow2;
      OrDisjoint(low / 2, high, n - 1);
    }
  }

  lemma {:induction false} AndZero(x: nat)
    ensures BitAnd(x, 0) == 0
  {
    if x > 0 {
      AndZero(x / 2);
    }
  }

  lemma {:induction false} LowZero(n: nat)
    ensures Low(0, n) == 0
  {
    if n > 0 {
      LowZero(n - 1);
    }
  }

  lemma OddMask(n: nat)
    requires n > 0
    ensures (Pow2(n) - 1) / 2 == Pow2(n - 1) - 1 && (Pow2(n) - 1) % 2 == 1
  {
  }

  /** Masking with n ones keeps the last n digits. */
  lemma {:induction false} AndMask(x: nat, n: nat)
    ensures BitAnd(x, Pow2(n) - 1) == Low(x, n)
  {
    if n == 0 {
      AndZero(x);
    } else if x > 0 {
      hide Pow2;
      AndMask(x / 2, n - 1);
      OddMask(n);
    } else {
      LowZero(n);
    }
  }

  /** Masking with one digit set tests that digit. */
  lemma {:induction false} AndOne(x: nat, n: nat)
    ensures BitAnd(x, Pow2(n)) == Pow2(n) * Digit(x, n)
  {
    if x == 0 {
      ShrZero(n);
    } else if n == 0 {
      AndZero(x / 2);
    } else {
      AndOne(x / 2, n - 1);
      PowTimes(n, Digit(x, n));
      DigitNext(x, n);
    }
  }

  lemma {:induction false} ShrZero(n: nat)
    ensures Shr(0, n) == 0
  {
    if n > 0 {
      ShrZero(n - 1);
    }
  }

  lemma {:induction false} DigitOfSum(low: nat, high: nat, n: nat, i: nat)
    requires i < n
    ensures Digit(low + Pow2(n) * high, i) == Digit(low, i)
  {
    PowTimes(n, high);
    HalfOfSum(low, Pow2(n - 1) * high);
    if i > 0 {
      hide Pow2;
      DigitOfSum(low / 2, high, n - 1, i - 1);
      DigitNext(low, i);
      DigitNext(low + Pow2(n) * high, i);
    }
  }

  lemma DigitOfLow(x: nat, n: nat, i: nat)
    requires i < n
    ensures Digit(Low(x, n), i) == Digit(x, i)
  {
    Split(x, n);
    DigitOfSum(Low(x, n), Shr(x, n), n, i);
  }

  lemma DigitOfShr(x: nat, m: nat, i: nat)
    ensures Digit(Shr(x, m), i) == Digit(x, m + i)
  {
    ShrShr(x, m, i);
  }
}
