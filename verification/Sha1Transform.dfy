/** `transform` of mid/sha/sha.c: five renamed registers and a schedule that keeps only sixteen words,
    proved to be the compression function of FIPS 180-4 with its eighty words. */
module Sha1Transform {
  import opened Basics
  import opened WordArith
  import opened Sha1Spec

  // --- the macros F1 and F3 are the functions of the standard ---

  function F1(x: word, y: word, z: word): word { Xor(z, And(x, Xor(y, z))) }

  function F2(x: word, y: word, z: word): word { Xor(Xor(x, y), z) }

  function F3(x: word, y: word, z: word): word { Or(And(x, y), And(z, Or(x, y))) }

  function F4(x: word, y: word, z: word): word { Xor(Xor(x, y), z) }

  lemma XorComm(x: bv32, y: bv32)
    ensures XorBits(x, y) == XorBits(y, x)
  {
  }

  lemma XorAssoc(x: bv32, y: bv32, z: bv32)
    ensures XorBits(XorBits(x, y), z) == XorBits(x, XorBits(y, z))
  {
  }

  lemma AndOverXor(x: bv32, y: bv32, z: bv32)
    ensures AndBits(x, XorBits(y, z)) == XorBits(AndBits(x, y), AndBits(x, z))
  {
  }

  const ONES: bv32 := 0xFFFF_FFFF

  lemma NotIsXor(x: bv32)
    ensures NotBits(x) == XorBits(x, ONES) && AndBits(x, ONES) == x
  {
  }

  lemma AndComm(x: bv32, y: bv32)
    ensures AndBits(x, y) == AndBits(y, x)
  {
  }

  lemma AndNot(x: bv32, z: bv32)
    ensures AndBits(NotBits(x), z) == XorBits(AndBits(x, z), z)
  {
    hide AndBits, XorBits, NotBits;
    NotIsXor(x);
    NotIsXor(z);
    AndComm(XorBits(x, ONES), z);
    AndOverXor(z, x, ONES);
    AndComm(z, x);
  }

  lemma BitsF1(x: bv32, y: bv32, z: bv32)
    ensures XorBits(z, AndBits(x, XorBits(y, z))) == XorBits(AndBits(x, y), AndBits(NotBits(x), z))
  {
    hide AndBits, XorBits, NotBits;
    AndOverXor(x, y, z);
    AndNot(x, z);
    XorComm(z, XorBits(AndBits(x, y), AndBits(x, z)));
    XorAssoc(AndBits(x, y), AndBits(x, z), z);
  }

  lemma F1IsCh(x: word, y: word, z: word)
    ensures F1(x, y, z) == Ch(x, y, z)
  {
    hide Bits, Value, AndBits, XorBits, NotBits;
    var p, q, r := Bits(x), Bits(y), Bits(z);
    BitsOfValue(XorBits(q, r));
    BitsOfValue(AndBits(p, XorBits(q, r)));
    BitsOfValue(AndBits(p, q));
    BitsOfValue(NotBits(p));
    BitsOfValue(AndBits(NotBits(p), r));
    BitsF1(p, q, r);
  }

  lemma BitsF3(x: bv32, y: bv32, z: bv32)
    ensures OrBits(AndBits(x, y), AndBits(z, OrBits(x, y)))
         == XorBits(XorBits(AndBits(x, y), AndBits(x, z)), AndBits(y, z))
  {
  }

  lemma F3IsMaj(x: word, y: word, z: word)
    ensures F3(x, y, z) == Maj(x, y, z)
  {
    hide Bits, Value, AndBits, OrBits, XorBits;
    var p, q, r := Bits(x), Bits(y), Bits(z);
    BitsOfValue(AndBits(p, q));
    BitsOfValue(OrBits(p, q));
    BitsOfValue(AndBits(r, OrBits(p, q)));
    BitsOfValue(AndBits(p, r));
    BitsOfValue(AndBits(q, r));
    BitsOfValue(XorBits(AndBits(p, q), AndBits(p, r)));
    BitsF3(p, q, r);
  }

  lemma BitsReversed(p: bv32, q: bv32, r: bv32, s: bv32)
    ensures XorBits(XorBits(XorBits(p, q), r), s) == XorBits(XorBits(XorBits(s, r), q), p)
  {
    hide XorBits;
    XorComm(p, q);
    XorComm(XorBits(q, p), r);
    XorComm(XorBits(r, XorBits(q, p)), s);
    XorAssoc(r, q, p);
    XorAssoc(s, XorBits(r, q), p);
    XorAssoc(s, r, q);
  }

  lemma XorReversed(a: word, b: word, c: word, d: word)
    ensures Xor(Xor(Xor(a, b), c), d) == Xor(Xor(Xor(d, c), b), a)
  {
    hide Bits, Value, XorBits;
    var p, q, r, s := Bits(a), Bits(b), Bits(c), Bits(d);
    BitsOfValue(XorBits(p, q));
    BitsOfValue(XorBits(XorBits(p, q), r));
    BitsOfValue(XorBits(s, r));
    BitsOfValue(XorBits(XorBits(s, r), q));
    BitsReversed(p, q, r, s);
  }

  // --- one line of the source is one step of the standard ---

  const K1: word := 0x5A82_7999
  const K2: word := 0x6ED9_EBA1
  const K3: word := 0x8F1B_BCDC
  const K4: word := 0xCA62_C1D6

  /** What the macro R adds up in its register e. */
  function Line(a: word, f: word, e: word, k: word, m: word): word {
    Plus(e, Plus(Plus(Plus(Rotl(a, 5), f), k), m))
  }

  lemma LineIsStep(t: nat, a: word, b: word, c: word, d: word, e: word, f: word, k: word, m: word, block: seq<word>)
    requires |block| == 16 && f == RoundFunction(t, b, c, d) && k == K(t) && m == W(block, t)
    ensures Step(t, Regs(a, b, c, d, e), block) == Regs(Line(a, f, e, k, m), a, Rotl(b, 30), c, d)
  {
    hide Plus, Rotl, RoundFunction, K, W;
    var s := Plus(Rotl(a, 5), f);
    PlusAssoc(e, Plus(s, k), m);
    PlusAssoc(e, s, k);
    PlusComm(e, s);
  }

  /** The function and the constant of a round are those of the steps from t up to t + count. */
  ghost predicate Selects(f: (word, word, word) -> word, k: word, t: nat, count: nat) {
    forall j :: t <= j < t + count ==> SelectsAt(f, k, j)
  }

  ghost predicate SelectsAt(f: (word, word, word) -> word, k: word, j: nat) {
    k == K(j) && forall x, y, z :: f(x, y, z) == RoundFunction(j, x, y, z)
  }

  lemma Selection1()
    ensures Selects(F1, K1, 0, 20)
  {
    hide F1, Ch;
    forall j, x, y, z | 0 <= j < 20 ensures F1(x, y, z) == RoundFunction(j, x, y, z) { F1IsCh(x, y, z); }
  }

  lemma Selection2()
    ensures Selects(F2, K2, 20, 20)
  {
  }

  lemma Selection3()
    ensures Selects(F3, K3, 40, 20)
  {
    hide F3, Maj;
    forall j, x, y, z | 40 <= j < 60 ensures F3(x, y, z) == RoundFunction(j, x, y, z) { F3IsMaj(x, y, z); }
  }

  lemma Selection4()
    ensures Selects(F4, K4, 60, 20)
  {
  }

  // --- the rolling schedule ---

  /** The array holds the sixteen words of the schedule before word n. */
  ghost predicate Window(x: array<word>, n: nat, block: seq<word>)
    reads x
  {
    x.Length == 16 && |block| == 16 && 16 <= n && forall k :: n - 16 <= k < n ==> x[k % 16] == W(block, k)
  }

  function From(t: nat): nat { if t < 16 then 16 else t }

  /** The macro M. */
  method M(x: array<word>, i: nat, ghost block: seq<word>) returns (m: word)
    requires Window(x, i, block)
    modifies x
    ensures Window(x, i + 1, block) && m == W(block, i)
  {
    hide Rotl, Xor;
    var tm := Xor(Xor(Xor(x[i % 16], x[(i - 14) % 16]), x[(i - 8) % 16]), x[(i - 3) % 16]);
    assert i % 16 == (i - 16) % 16;
    XorReversed(W(block, i - 16), W(block, i - 14), W(block, i - 8), W(block, i - 3));
    x[i % 16] := Rotl(tm, 1);
    m := x[i % 16];
    forall k | i - 15 <= k < i ensures k % 16 != i % 16 { }
  }

  /** The last argument of a line: a word of the block in the first sixteen lines, then M. */
  method NextWord(x: array<word>, i: nat, ghost block: seq<word>) returns (m: word)
    requires Window(x, From(i), block)
    modifies x
    ensures Window(x, From(i + 1), block) && m == W(block, i)
  {
    if i < 16 {
      m := x[i];
      assert i % 16 == i;
    } else {
      m := M(x, i, block);
    }
  }

  /** Five lines of the source, after which every register is back in its place. */
  method FiveLines(r: Regs, x: array<word>, t: nat, f: (word, word, word) -> word, k: word,
                   ghost start: Regs, ghost block: seq<word>) returns (s: Regs)
    requires Window(x, From(t), block) && r == Steps(t, start, block) && Selects(f, k, t, 5)
    modifies x
    ensures Window(x, From(t + 5), block) && s == Steps(t + 5, start, block)
  {
    hide Window, Line, Rotl, W, K, RoundFunction, Step, From;
    var Regs(a, b, c, d, e) := r;
    assert SelectsAt(f, k, t) && SelectsAt(f, k, t + 1) && SelectsAt(f, k, t + 2) && SelectsAt(f, k, t + 3)
        && SelectsAt(f, k, t + 4);
    var m := NextWord(x, t, block);
    LineIsStep(t, a, b, c, d, e, f(b, c, d), k, m, block);
    e, b := Line(a, f(b, c, d), e, k, m), Rotl(b, 30);
    assert Steps(t + 1, start, block) == Regs(e, a, b, c, d);
    m := NextWord(x, t + 1, block);
    LineIsStep(t + 1, e, a, b, c, d, f(a, b, c), k, m, block);
    d, a := Line(e, f(a, b, c), d, k, m), Rotl(a, 30);
    assert Steps(t + 2, start, block) == Regs(d, e, a, b, c);
    m := NextWord(x, t + 2, block);
    LineIsStep(t + 2, d, e, a, b, c, f(e, a, b), k, m, block);
    c, e := Line(d, f(e, a, b), c, k, m), Rotl(e, 30);
    assert Steps(t + 3, start, block) == Regs(c, d, e, a, b);
    m := NextWord(x, t + 3, block);
    LineIsStep(t + 3, c, d, e, a, b, f(d, e, a), k, m, block);
    b, d := Line(c, f(d, e, a), b, k, m), Rotl(d, 30);
    assert Steps(t + 4, start, block) == Regs(b, c, d, e, a);
    m := NextWord(x, t + 4, block);
    LineIsStep(t + 4, b, c, d, e, a, f(c, d, e), k, m, block);
    a, c := Line(b, f(c, d, e), a, k, m), Rotl(c, 30);
    s := Regs(a, b, c, d, e);
  }

  /** The loop of `transform` that reads the block as big-endian words. */
  method ReadBlock(data: Bytes) returns (x: array<word>)
    requires |data| == 64
    ensures fresh(x) && Window(x, 16, WordsOfBlock(data))
  {
    hide BigWord;
    x := new word[16](_ => 0);
    for i := 0 to 16
      invariant forall k :: 0 <= k < i ==> x[k] == WordsOfBlock(data)[k]
    {
      x[i] := BigWord(data[4 * i..4 * i + 4]);
    }
    forall k | 0 <= k < 16 ensures x[k % 16] == W(WordsOfBlock(data), k) { }
  }

  /** `transform`. */
  method Transform(h: Regs, data: Bytes) returns (r: Regs)
    requires |data| == 64
    ensures r == CompressBlock(h, data)
  {
    hide Window, Steps, Plus, W, K, RoundFunction, SelectsAt, From, F1, F2, F3, F4, WordsOfBlock;
    ghost var block := WordsOfBlock(data);
    StepsBegin(h, block);
    var x := ReadBlock(data);
    FromBegin();
    var s := h;
    Selection1();
    s := FiveLines(s, x, 0, F1, K1, h, block);
    s := FiveLines(s, x, 5, F1, K1, h, block);
    s := FiveLines(s, x, 10, F1, K1, h, block);
    s := FiveLines(s, x, 15, F1, K1, h, block);
    Selection2();
    s := FiveLines(s, x, 20, F2, K2, h, block);
    s := FiveLines(s, x, 25, F2, K2, h, block);
    s := FiveLines(s, x, 30, F2, K2, h, block);
    s := FiveLines(s, x, 35, F2, K2, h, block);
    Selection3();
    s := FiveLines(s, x, 40, F3, K3, h, block);
    s := FiveLines(s, x, 45, F3, K3, h, block);
    s := FiveLines(s, x, 50, F3, K3, h, block);
    s := FiveLines(s, x, 55, F3, K3, h, block);
    Selection4();
    s := FiveLines(s, x, 60, F4, K4, h, block);
    s := FiveLines(s, x, 65, F4, K4, h, block);
    s := FiveLines(s, x, 70, F4, K4, h, block);
    s := FiveLines(s, x, 75, F4, K4, h, block);
    r := Regs(Plus(h.a, s.a), Plus(h.b, s.b), Plus(h.c, s.c), Plus(h.d, s.d), Plus(h.e, s.e));
  }

  lemma StepsBegin(r: Regs, x: seq<word>)
    requires |x| == 16
    ensures Steps(0, r, x) == r
  {
  }

  lemma FromBegin()
    ensures From(0) == 16
  {
  }
}
