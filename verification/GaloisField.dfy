/** The field GF(2^8) of FIPS 197, section 4, and its generator 3, from whose powers
    the source builds its logarithm tables. */
module GaloisField {

  /** Addition of field elements (FIPS 197, section 4.1). */
  function Add(a: bv8, b: bv8): bv8 {
    a ^ b
  }

  /** Multiplication by the polynomial x, modulo x^8 + x^4 + x^3 + x + 1. */
  function Xtime(a: bv8): bv8 {
    (a << 1) ^ (if a & 0x80 != 0 then 0x1B else 0)
  }

  function Times3(a: bv8): bv8 {
    Add(a, Xtime(a))
  }

  function Select(b: bv8, a: bv8): bv8 {
    if b & 1 != 0 then a else 0
  }

  /** The sum of a * x^k over those of the lowest n bits k that are set in b. */
  function PartialProduct(a: bv8, b: bv8, n: nat): bv8
    decreases n
  {
    if n == 0 then 0 else Add(Select(b, a), PartialProduct(Xtime(a), b >> 1, n - 1))
  }

  /** The product of two field elements (FIPS 197, section 4.2). */
  function Mul(a: bv8, b: bv8): bv8 {
    PartialProduct(a, b, 8)
  }

  /** The byte with index i, as the source's cast to `unsigned char`. */
  function ByteOf(i: int): (b: bv8)
    requires 0 <= i < 256
    ensures b as int == i
  {
    if i == 0 then 0 else ByteOf(i - 1) + 1
  }

  lemma SameIndex(b: bv8, c: bv8)
    requires b as int == c as int
    ensures b == c
  {
  }

  // --- addition ---

  lemma AddComm(a: bv8, b: bv8)
    ensures Add(a, b) == Add(b, a)
  {
  }

  lemma AddAssoc(a: bv8, b: bv8, c: bv8)
    ensures Add(Add(a, b), c) == Add(a, Add(b, c))
  {
  }

  lemma AddSelf(a: bv8, b: bv8)
    ensures Add(a, a) == 0 && Add(a, 0) == a && Add(0, a) == a && Add(Add(a, b), b) == a
  {
  }

  lemma AddInterchange(a: bv8, b: bv8, c: bv8, d: bv8)
    ensures Add(Add(a, b), Add(c, d)) == Add(Add(a, c), Add(b, d))
  {
    hide Add;
    AddAssoc(a, b, Add(c, d));
    AddAssoc(b, c, d);
    AddComm(b, c);
    AddAssoc(c, b, d);
    AddAssoc(a, c, Add(b, d));
  }

  // --- multiplication by fixed elements is linear ---

  lemma XtimeZero()
    ensures Xtime(0) == 0
  {
  }

  /** The two parts of a multiplication by x: the shifted polynomial and what reducing it adds. */
  function Shifted(a: bv8): bv8 {
    a << 1
  }

  function Reduction(a: bv8): bv8 {
    if a & 0x80 != 0 then 0x1B else 0
  }

  lemma XtimeParts(a: bv8)
    ensures Xtime(a) == Add(Shifted(a), Reduction(a))
  {
  }

  lemma ShiftedAdd(a: bv8, b: bv8)
    ensures Shifted(Add(a, b)) == Add(Shifted(a), Shifted(b))
  {
  }

  lemma ReductionAdd(a: bv8, b: bv8)
    ensures Reduction(Add(a, b)) == Add(Reduction(a), Reduction(b))
  {
    TopBitAdd(a, b);
    hide Add;
    AddSelf(0x1B, 0x1B);
    AddSelf(0, 0x1B);
    AddSelf(0, 0);
  }

  lemma TopBitAdd(a: bv8, b: bv8)
    ensures Add(a, b) & 0x80 != 0 <==> (a & 0x80 != 0) != (b & 0x80 != 0)
  {
  }

  lemma XtimeAdd(a: bv8, b: bv8)
    ensures Xtime(Add(a, b)) == Add(Xtime(a), Xtime(b))
  {
    hide Add, Xtime, Shifted, Reduction;
    XtimeParts(a);
    XtimeParts(b);
    XtimeParts(Add(a, b));
    ShiftedAdd(a, b);
    ReductionAdd(a, b);
    AddInterchange(Shifted(a), Shifted(b), Reduction(a), Reduction(b));
  }

  lemma SelectAdd(b: bv8, a: bv8, a': bv8)
    ensures Select(b, Add(a, a')) == Add(Select(b, a), Select(b, a'))
  {
  }

  lemma SelectXtime(b: bv8, a: bv8)
    ensures Xtime(Select(b, a)) == Select(b, Xtime(a))
  {
  }

  lemma {:induction false} PartialProductAdd(a: bv8, a': bv8, b: bv8, n: nat)
    ensures PartialProduct(Add(a, a'), b, n) == Add(PartialProduct(a, b, n), PartialProduct(a', b, n))
    decreases n
  {
    hide Add, Xtime, Select;
    if n == 0 {
      AddSelf(0, 0);
    } else {
      XtimeAdd(a, a');
      SelectAdd(b, a, a');
      PartialProductAdd(Xtime(a), Xtime(a'), b >> 1, n - 1);
      AddInterchange(Select(b, a), Select(b, a'),
        PartialProduct(Xtime(a), b >> 1, n - 1), PartialProduct(Xtime(a'), b >> 1, n - 1));
    }
  }

  lemma {:induction false} PartialProductXtime(a: bv8, b: bv8, n: nat)
    ensures PartialProduct(Xtime(a), b, n) == Xtime(PartialProduct(a, b, n))
    decreases n
  {
    hide Add, Xtime, Select;
    if n == 0 {
      XtimeZero();
    } else {
      SelectXtime(b, a);
      PartialProductXtime(Xtime(a), b >> 1, n - 1);
      XtimeAdd(Select(b, a), PartialProduct(Xtime(a), b >> 1, n - 1));
    }
  }

  lemma MulTimes3(a: bv8, b: bv8)
    ensures Mul(Times3(a), b) == Times3(Mul(a, b))
  {
    hide Add, Xtime, PartialProduct;
    PartialProductAdd(a, Xtime(a), b, 8);
    PartialProductXtime(a, b, 8);
  }

  lemma {:induction false} ZeroPartialProduct(b: bv8, n: nat)
    ensures PartialProduct(0, b, n) == 0
    decreases n
  {
    hide Add, Xtime;
    if n > 0 {
      XtimeZero();
      AddSelf(0, 0);
      ZeroPartialProduct(b >> 1, n - 1);
    }
  }

  lemma {:induction false} PartialProductZero(a: bv8, n: nat)
    ensures PartialProduct(a, 0, n) == 0
    decreases n
  {
    hide Add, Xtime;
    if n > 0 {
      AddSelf(0, 0);
      PartialProductZero(Xtime(a), n - 1);
      assert (0 as bv8) >> 1 == 0;
    }
  }

  lemma MulZero(b: bv8)
    ensures Mul(0, b) == 0 && Mul(b, 0) == 0
  {
    ZeroPartialProduct(b, 8);
    PartialProductZero(b, 8);
  }

  ghost predicate FitsIn(b: bv8, n: nat)
    decreases n
  {
    if n == 0 then b == 0 else FitsIn(b >> 1, n - 1)
  }

  lemma BitsReassembled(b: bv8)
    ensures Add(Select(b, 1), Xtime(b >> 1)) == b
  {
  }

  lemma {:induction false} PartialProductOne(b: bv8, n: nat)
    requires FitsIn(b, n)
    ensures PartialProduct(1, b, n) == b
    decreases n
  {
    hide Add, Xtime, Select;
    if n > 0 {
      PartialProductXtime(1, b >> 1, n - 1);
      PartialProductOne(b >> 1, n - 1);
      BitsReassembled(b);
    }
  }

  lemma MulOne(b: bv8)
    ensures Mul(1, b) == b
  {
    assert FitsIn(b, 8);
    PartialProductOne(b, 8);
  }

  // --- the generator 3 ---

  /** 3 to the power n. */
  function Pow3(n: nat): bv8 {
    if n == 0 then 1 else Times3(Pow3(n - 1))
  }

  lemma {:induction false} Pow3Add(i: nat, j: nat)
    ensures Mul(Pow3(i), Pow3(j)) == Pow3(i + j)
  {
    hide Mul, Times3;
    if i == 0 {
      MulOne(Pow3(j));
    } else {
      MulTimes3(Pow3(i - 1), Pow3(j));
      Pow3Add(i - 1, j);
    }
  }

  lemma Pow3Mul(i: nat, j: nat, p: bv8)
    requires Mul(Pow3(i), Pow3(j)) == p
    ensures Pow3(i + j) == p
  {
    Pow3Add(i, j);
  }

  lemma SmallPowersOf3()
    ensures Pow3(1) == 0x03 && Pow3(3) == 0x0F && Pow3(5) == 0x33
    ensures Pow3(15) == 0x35 && Pow3(17) == 0xE1
  {
    assert Pow3(2) == 0x05 && Pow3(4) == 0x11;
    Pow3Mul(5, 5, 0x72);
    Pow3Mul(10, 5, 0x35);
    Pow3Mul(15, 2, 0xE1);
  }

  lemma LargePowersOf3()
    ensures Pow3(51) == 0x0C && Pow3(85) == 0xBD && Pow3(255) == 1
  {
    hide Pow3;
    SmallPowersOf3();
    Pow3Mul(17, 17, 0x5C);
    Pow3Mul(34, 17, 0x0C);
    Pow3Mul(51, 34, 0xBD);
    Pow3Mul(85, 85, 0xBC);
    Pow3Mul(170, 85, 1);
  }

  lemma {:induction false} Pow3Cycle(d: nat, k: nat)
    requires Pow3(d) == 1
    ensures Pow3(d * k) == 1
  {
    hide Mul, Times3;
    if k > 0 {
      Pow3Cycle(d, k - 1);
      Pow3Add(d, d * (k - 1));
      MulOne(1);
      assert d + d * (k - 1) == d * k;
    }
  }

  /** A proper divisor of 255 divides 15, 51 or 85. */
  lemma DivisorOf255(d: nat, q: nat)
    requires 1 < q && d * q == 255
    ensures 15 % d == 0 || 51 % d == 0 || 85 % d == 0
  {
    if d <= 15 {
      assert d == 1 || d == 3 || d == 5 || d == 15 by { SmallDivisorOf255(d, q); }
    } else {
      assert q <= 15;
      assert q == 1 || q == 3 || q == 5 || q == 15 by { SmallDivisorOf255(q, d); }
    }
  }

  lemma SmallDivisorOf255(d: nat, q: nat)
    requires d <= 15 && d * q == 255
    ensures d == 1 || d == 3 || d == 5 || d == 15
  {
    if d == 0 { } else if d == 2 { } else if d == 4 { } else if d == 6 { } else if d == 7 { }
    else if d == 8 { } else if d == 9 { } else if d == 10 { } else if d == 11 { }
    else if d == 12 { } else if d == 13 { } else if d == 14 { }
  }

  /** The smallest positive exponent in [1, n] at which the power of 3 is 1. */
  ghost function Order(n: nat): (d: nat)
    requires exists i :: 0 < i <= n && Pow3(i) == 1
    ensures 0 < d <= n && Pow3(d) == 1
    ensures forall i :: 0 < i < d ==> Pow3(i) != 1
  {
    if exists i :: 0 < i <= n - 1 && Pow3(i) == 1 then Order(n - 1) else n
  }

  lemma Pow3Rest(m: nat, r: nat)
    requires m + r == 255 && Pow3(m) == 1
    ensures Pow3(r) == 1
  {
    hide Mul, Pow3;
    LargePowersOf3();
    Pow3Add(m, r);
    MulOne(Pow3(r));
  }

  lemma OrderDivides255(d: nat)
    requires 0 < d <= 255 && Pow3(d) == 1
    requires forall i :: 0 < i < d ==> Pow3(i) != 1
    ensures 255 % d == 0
  {
    hide Pow3;
    Pow3Cycle(d, 255 / d);
    Pow3Rest(d * (255 / d), 255 % d);
  }

  lemma OrderDivides(d: nat, n: nat)
    requires 0 < d && Pow3(d) == 1 && n % d == 0
    ensures Pow3(n) == 1
  {
    hide Pow3;
    Pow3Cycle(d, n / d);
  }

  /** 3 has order exactly 255: no smaller positive power of it is 1. */
  lemma Order255(n: nat)
    requires 0 < n < 255
    ensures Pow3(n) != 1
  {
    hide Pow3;
    if Pow3(n) == 1 {
      var d := Order(n);
      OrderDivides255(d);
      DivisorOf255(d, 255 / d);
      LargePowersOf3();
      SmallPowersOf3();
      if 15 % d == 0 {
        OrderDivides(d, 15);
      } else if 51 % d == 0 {
        OrderDivides(d, 51);
      } else {
        OrderDivides(d, 85);
      }
    }
  }

  /** The powers of 3 repeat after 255. */
  lemma Pow3Period(n: nat)
    ensures Pow3(n + 255) == Pow3(n)
  {
    hide Times3, Mul, Pow3;
    LargePowersOf3();
    Pow3Add(255, n);
    MulOne(Pow3(n));
  }

  lemma Pow3Injective(i: nat, j: nat)
    requires i < j < 255
    ensures Pow3(i) != Pow3(j)
  {
    hide Times3, Mul, Pow3;
    if Pow3(i) == Pow3(j) {
      LargePowersOf3();
      Pow3Add(i, 255 - i);
      Pow3Add(j, 255 - i);
      Pow3Add(255, j - i);
      MulOne(Pow3(j - i));
      Order255(j - i);
      assert false;
    }
  }

  // --- every non-zero byte is a power of 3 ---

  ghost function FirstPowers(n: nat): set<bv8> {
    if n == 0 then {} else FirstPowers(n - 1) + {Pow3(n - 1)}
  }

  ghost function BytesUpTo(n: nat): set<bv8>
    requires n < 256
  {
    if n == 0 then {} else BytesUpTo(n - 1) + {ByteOf(n)}
  }

  lemma {:induction false} FirstPowersMember(n: nat, x: bv8)
    ensures x in FirstPowers(n) <==> exists i: nat :: i < n && Pow3(i) == x
  {
    hide Pow3;
    if n == 0 {
      assert FirstPowers(n) == {};
    } else {
      FirstPowersMember(n - 1, x);
      assert FirstPowers(n) == FirstPowers(n - 1) + {Pow3(n - 1)};
      if x == Pow3(n - 1) {
        assert n - 1 < n && Pow3(n - 1) == x;
      }
    }
  }

  lemma {:induction false} FirstPowersSize(n: nat)
    requires n <= 255
    ensures |FirstPowers(n)| == n
  {
    hide Pow3;
    if n > 0 {
      FirstPowersSize(n - 1);
      FirstPowersMember(n - 1, Pow3(n - 1));
      forall i: nat | i < n - 1 ensures Pow3(i) != Pow3(n - 1) { Pow3Injective(i, n - 1); }
    }
  }

  lemma {:induction false} BytesUpToMember(n: nat, x: bv8)
    requires n < 256 && 0 < x as int <= n
    ensures x in BytesUpTo(n)
  {
    if x as int < n {
      BytesUpToMember(n - 1, x);
    } else {
      SameIndex(x, ByteOf(n));
    }
  }

  lemma {:induction false} BytesUpToSize(n: nat)
    requires n < 256
    ensures |BytesUpTo(n)| <= n
  {
    if n > 0 {
      BytesUpToSize(n - 1);
    }
  }

  lemma {:induction false} Pow3NotZero(n: nat)
    ensures Pow3(n) != 0
  {
    if n > 0 {
      Pow3NotZero(n - 1);
      Times3NotZero(Pow3(n - 1));
    }
  }

  lemma Times3NotZero(a: bv8)
    requires a != 0
    ensures Times3(a) != 0
  {
  }

  lemma SubsetOfSameSize<T>(a: set<T>, b: set<T>)
    requires a <= b && |b| <= |a|
    ensures a == b
  {
    assert |b - a| == |b| - |a|;
    assert b - a == {};
  }

  /** The powers of 3 are all the non-zero bytes, so the source's `log` table has an
      entry for every operand it is used on. */
  lemma Pow3Onto(x: bv8) returns (i: nat)
    requires x != 0
    ensures i < 255 && Pow3(i) == x
  {
    hide Pow3;
    forall y | y in FirstPowers(255) ensures y in BytesUpTo(255) {
      FirstPowersMember(255, y);
      var k: nat :| k < 255 && Pow3(k) == y;
      Pow3NotZero(k);
      BytesUpToMember(255, y);
    }
    FirstPowersSize(255);
    BytesUpToSize(255);
    SubsetOfSameSize(FirstPowers(255), BytesUpTo(255));
    BytesUpToMember(255, x);
    FirstPowersMember(255, x);
    i :| i < 255 && Pow3(i) == x;
  }

  // --- the field laws of multiplication ---

  lemma MulComm(a: bv8, b: bv8)
    ensures Mul(a, b) == Mul(b, a)
  {
    hide Mul, Pow3;
    if a == 0 || b == 0 {
      MulZero(a);
      MulZero(b);
    } else {
      var i := Pow3Onto(a);
      var j := Pow3Onto(b);
      Pow3Add(i, j);
      Pow3Add(j, i);
    }
  }

  lemma MulAssoc(a: bv8, b: bv8, c: bv8)
    ensures Mul(Mul(a, b), c) == Mul(a, Mul(b, c))
  {
    hide Mul, Pow3;
    if a == 0 || b == 0 || c == 0 {
      MulZero(a);
      MulZero(b);
      MulZero(c);
      MulZero(Mul(a, b));
      MulZero(Mul(b, c));
    } else {
      var i := Pow3Onto(a);
      var j := Pow3Onto(b);
      var k := Pow3Onto(c);
      Pow3Add(i, j);
      Pow3Add(j, k);
      Pow3Add(i + j, k);
      Pow3Add(i, j + k);
    }
  }

  lemma InverseExists(x: bv8) returns (y: bv8)
    requires x != 0
    ensures Mul(x, y) == 1
  {
    hide Mul, Pow3;
    var i := Pow3Onto(x);
    y := Pow3(255 - i);
    Pow3Add(i, 255 - i);
    LargePowersOf3();
  }

  lemma InverseUnique(x: bv8, y: bv8, z: bv8)
    requires Mul(x, y) == 1 && Mul(x, z) == 1
    ensures y == z
  {
    hide Mul;
    MulComm(x, y);
    MulAssoc(y, x, z);
    MulOne(z);
    MulOne(y);
    MulComm(1, y);
  }

  /** The multiplicative inverse, with 0 mapped to itself (FIPS 197, section 5.1.1). */
  ghost function Inverse(x: bv8): (y: bv8)
    ensures if x == 0 then y == 0 else Mul(x, y) == 1
  {
    if x == 0 then 0
    else
      assert exists y :: Mul(x, y) == 1 by { var y := InverseExists(x); }
      var y :| Mul(x, y) == 1; y
  }

  lemma InverseInvolution(x: bv8)
    ensures Inverse(Inverse(x)) == x
  {
    hide Mul;
    if x != 0 {
      var y := Inverse(x);
      MulZero(x);
      MulComm(x, y);
      InverseUnique(y, x, Inverse(y));
    }
  }
}
