/** The CFB128 and CTR modes of mid/aes_e/aes_e.c over any block cipher: byte by byte, with the offset
    within the block carried from call to call. */
module StreamModes {
  import opened GaloisField

  type Block = b: seq<bv8> | |b| == 16 witness seq(16, _ => 0)

  type Cipher = Block -> Block

  // --- CFB128 ---

  /** The feedback register and the offset within the block. */
  datatype Feedback = Feedback(iv: Block, n: nat)

  /** The register before the next byte is processed: at offset 0 it is encrypted. */
  function Ready(enc: Cipher, s: Feedback): (iv: Block) {
    if s.n == 0 then enc(s.iv) else s.iv
  }

  /** The state after the ciphertext byte c. */
  function Absorb(enc: Cipher, s: Feedback, c: bv8): (t: Feedback)
    requires s.n < 16
    ensures t.n == (s.n + 1) % 16
  {
    Feedback(Ready(enc, s)[s.n := c], (s.n + 1) % 16)
  }

  /** The state after a ciphertext. */
  function Absorbed(enc: Cipher, s: Feedback, c: seq<bv8>): (t: Feedback)
    requires s.n < 16
    ensures t.n < 16
  {
    if c == [] then s else Absorb(enc, Absorbed(enc, s, c[..|c| - 1]), c[|c| - 1])
  }

  function EncryptByte(enc: Cipher, s: Feedback, p: bv8): bv8
    requires s.n < 16
  {
    Add(Ready(enc, s)[s.n], p)
  }

  function DecryptByte(enc: Cipher, s: Feedback, c: bv8): bv8
    requires s.n < 16
  {
    Add(c, Ready(enc, s)[s.n])
  }

  lemma DecryptEncryptByte(enc: Cipher, s: Feedback, p: bv8)
    requires s.n < 16
    ensures DecryptByte(enc, s, EncryptByte(enc, s, p)) == p
  {
    hide Add;
    var k := Ready(enc, s)[s.n];
    AddComm(k, p);
    AddSelf(p, k);
  }

  function Encrypted(enc: Cipher, s: Feedback, p: seq<bv8>): (c: seq<bv8>)
    requires s.n < 16
    ensures |c| == |p|
  {
    if p == [] then []
    else
      var c := Encrypted(enc, s, p[..|p| - 1]);
      c + [EncryptByte(enc, Absorbed(enc, s, c), p[|p| - 1])]
  }

  function Decrypted(enc: Cipher, s: Feedback, c: seq<bv8>): (p: seq<bv8>)
    requires s.n < 16
    ensures |p| == |c|
  {
    if c == [] then []
    else
      Decrypted(enc, s, c[..|c| - 1]) + [DecryptByte(enc, Absorbed(enc, s, c[..|c| - 1]), c[|c| - 1])]
  }

  // --- one byte more ---

  lemma AbsorbedLast(enc: Cipher, s: Feedback, c: seq<bv8>, b: bv8)
    requires s.n < 16
    ensures Absorbed(enc, s, c + [b]) == Absorb(enc, Absorbed(enc, s, c), b)
  {
    hide Absorb;
    assert (c + [b])[..|c|] == c;
  }

  lemma EncryptedLast(enc: Cipher, s: Feedback, p: seq<bv8>, b: bv8)
    requires s.n < 16
    ensures var c := Encrypted(enc, s, p);
      Encrypted(enc, s, p + [b]) == c + [EncryptByte(enc, Absorbed(enc, s, c), b)]
  {
    hide Absorbed, EncryptByte;
    assert (p + [b])[..|p|] == p;
  }

  lemma DecryptedLast(enc: Cipher, s: Feedback, c: seq<bv8>, b: bv8)
    requires s.n < 16
    ensures Decrypted(enc, s, c + [b]) == Decrypted(enc, s, c) + [DecryptByte(enc, Absorbed(enc, s, c), b)]
  {
    hide Absorbed, DecryptByte;
    assert (c + [b])[..|c|] == c;
  }

  lemma Nothing(enc: Cipher, s: Feedback)
    requires s.n < 16
    ensures Absorbed(enc, s, []) == s && Encrypted(enc, s, []) == [] && Decrypted(enc, s, []) == []
  {
  }

  lemma AddLast(a: seq<bv8>, b: seq<bv8>)
    requires b != []
    ensures b == b[..|b| - 1] + [b[|b| - 1]] && a + b == (a + b[..|b| - 1]) + [b[|b| - 1]]
  {
  }

  // --- splitting and inversion ---

  /** The state after two pieces is the state after the second, starting after the first. */
  lemma {:induction false} AbsorbedSplit(enc: Cipher, s: Feedback, a: seq<bv8>, b: seq<bv8>)
    requires s.n < 16
    ensures Absorbed(enc, s, a + b) == Absorbed(enc, Absorbed(enc, s, a), b)
    decreases |b|
  {
    hide Absorbed, Absorb;
    if b == [] {
      Nothing(enc, Absorbed(enc, s, a));
      assert a + b == a;
    } else {
      var init, last := b[..|b| - 1], b[|b| - 1];
      AddLast(a, b);
      AbsorbedSplit(enc, s, a, init);
      AbsorbedLast(enc, s, a + init, last);
      AbsorbedLast(enc, Absorbed(enc, s, a), init, last);
    }
  }

  /** However the plaintext is split over calls, the ciphertext is the same. */
  lemma {:induction false} EncryptedSplit(enc: Cipher, s: Feedback, a: seq<bv8>, b: seq<bv8>)
    requires s.n < 16
    ensures var c := Encrypted(enc, s, a);
      Encrypted(enc, s, a + b) == c + Encrypted(enc, Absorbed(enc, s, c), b)
    decreases |b|
  {
    hide Absorbed, Encrypted, EncryptByte;
    var c := Encrypted(enc, s, a);
    var t := Absorbed(enc, s, c);
    if b == [] {
      Nothing(enc, t);
      assert a + b == a;
    } else {
      var init, last := b[..|b| - 1], b[|b| - 1];
      AddLast(a, b);
      EncryptedSplit(enc, s, a, init);
      AbsorbedSplit(enc, s, c, Encrypted(enc, t, init));
      EncryptedLast(enc, s, a + init, last);
      EncryptedLast(enc, t, init, last);
    }
  }

  /** However the ciphertext is split over calls, the plaintext is the same. */
  lemma {:induction false} DecryptedSplit(enc: Cipher, s: Feedback, a: seq<bv8>, b: seq<bv8>)
    requires s.n < 16
    ensures Decrypted(enc, s, a + b) == Decrypted(enc, s, a) + Decrypted(enc, Absorbed(enc, s, a), b)
    decreases |b|
  {
    hide Absorbed, Decrypted, DecryptByte;
    var t := Absorbed(enc, s, a);
    if b == [] {
      Nothing(enc, t);
      assert a + b == a;
    } else {
      var init, last := b[..|b| - 1], b[|b| - 1];
      AddLast(a, b);
      DecryptedSplit(enc, s, a, init);
      AbsorbedSplit(enc, s, a, init);
      DecryptedLast(enc, s, a + init, last);
      DecryptedLast(enc, t, init, last);
    }
  }

  /** Decryption from the same state undoes encryption, for every length. */
  lemma {:induction false} CfbInverts(enc: Cipher, s: Feedback, p: seq<bv8>)
    requires s.n < 16
    ensures Decrypted(enc, s, Encrypted(enc, s, p)) == p
    decreases |p|
  {
    hide Absorbed, Encrypted, Decrypted, EncryptByte, DecryptByte;
    if p == [] {
      Nothing(enc, s);
    } else {
      var init, last := p[..|p| - 1], p[|p| - 1];
      var c := Encrypted(enc, s, init);
      var t := Absorbed(enc, s, c);
      AddLast([], p);
      CfbInverts(enc, s, init);
      EncryptedLast(enc, s, init, last);
      DecryptedLast(enc, s, c, EncryptByte(enc, t, last));
      DecryptEncryptByte(enc, t, last);
    }
  }

  /** The input of the cipher for block j: the previous ciphertext block, or the initial vector. */
  function Previous(iv: Block, c: seq<bv8>, j: nat): Block
    requires 16 * j <= |c|
  {
    if j == 0 then iv else c[16 * j - 16..16 * j]
  }

  /** What the register holds in the course of a block. */
  ghost predicate Register(enc: Cipher, iv: Block, c: seq<bv8>, t: Feedback) {
    var j, i := |c| / 16, |c| % 16;
    && t.n == i
    && (i == 0 ==> t.iv == Previous(iv, c, j))
    && (i > 0 ==> t.iv == c[16 * j..] + enc(Previous(iv, c, j))[i..])
  }

  lemma {:induction false} RegisterAt(enc: Cipher, iv: Block, c: seq<bv8>)
    ensures Register(enc, iv, c, Absorbed(enc, Feedback(iv, 0), c))
    decreases |c|
  {
    if c == [] {
      Nothing(enc, Feedback(iv, 0));
    } else {
      hide *;
      var init, last := c[..|c| - 1], c[|c| - 1];
      assert init + [last] == c;
      RegisterAt(enc, iv, init);
      RegisterNext(enc, iv, init, last, Absorbed(enc, Feedback(iv, 0), init));
      AbsorbedLast(enc, Feedback(iv, 0), init, last);
    }
  }

  lemma RegisterNext(enc: Cipher, iv: Block, c: seq<bv8>, b: bv8, t: Feedback)
    requires t.n < 16 && Register(enc, iv, c, t)
    ensures Register(enc, iv, c + [b], Absorb(enc, t, b))
  {
    var j, i := |c| / 16, |c| % 16;
    var d, u := c + [b], Absorb(enc, t, b);
    var e: Block := enc(Previous(iv, c, j));
    ReadyHolds(enc, iv, c, t);
    PreviousKept(iv, c, j, b);
    ByteReplaced(c[16 * j..], e[i..], b);
    assert u.iv == d[16 * j..] + e[i..][1..];
    hide Ready, Previous;
    if i == 15 {
      assert |d| / 16 == j + 1;
      WholeBlock(iv, d, j);
    } else {
      assert |d| / 16 == j && e[i..][1..] == e[i + 1..];
    }
  }

  lemma PreviousKept(iv: Block, c: seq<bv8>, j: nat, b: bv8)
    requires 16 * j <= |c|
    ensures Previous(iv, c + [b], j) == Previous(iv, c, j) && c[16 * j..] + [b] == (c + [b])[16 * j..]
  {
  }

  lemma ByteReplaced(a: seq<bv8>, e: seq<bv8>, b: bv8)
    requires e != []
    ensures (a + e)[|a| := b] == (a + [b]) + e[1..]
  {
  }

  lemma WholeBlock(iv: Block, d: seq<bv8>, j: nat)
    requires |d| == 16 * j + 16
    ensures Previous(iv, d, j + 1) == d[16 * j..]
  {
  }

  lemma ReadyHolds(enc: Cipher, iv: Block, c: seq<bv8>, t: Feedback)
    requires t.n < 16 && Register(enc, iv, c, t)
    ensures var j, i := |c| / 16, |c| % 16; Ready(enc, t) == c[16 * j..] + enc(Previous(iv, c, j))[i..]
  {
    if t.n == 0 {
      assert c[16 * (|c| / 16)..] == [];
    }
  }

  lemma {:induction false} EncryptedPrefix(enc: Cipher, s: Feedback, p: seq<bv8>, k: nat)
    requires s.n < 16 && k <= |p|
    ensures Encrypted(enc, s, p[..k]) == Encrypted(enc, s, p)[..k]
    decreases |p|
  {
    hide *;
    if k < |p| {
      var init, last := p[..|p| - 1], p[|p| - 1];
      EncryptedPrefix(enc, s, init, k);
      assert init[..k] == p[..k] && init + [last] == p;
      EncryptedLast(enc, s, init, last);
    } else {
      assert p[..k] == p;
    }
  }

  lemma EncryptedByte(enc: Cipher, s: Feedback, p: seq<bv8>, k: nat)
    requires s.n < 16 && k < |p|
    ensures var c := Encrypted(enc, s, p);
      var t := Absorbed(enc, s, c[..k]);
      c[k] == Add(Ready(enc, t)[t.n], p[k])
  {
    hide Absorbed, Encrypted, Add, Ready;
    EncryptedPrefix(enc, s, p, k);
    EncryptedPrefix(enc, s, p, k + 1);
    EncryptedLast(enc, s, p[..k], p[k]);
    assert p[..k] + [p[k]] == p[..k + 1];
  }

  /** Section 6.3 of NIST SP 800-38A: every ciphertext block is the plaintext block plus the encryption of
      the previous ciphertext block, the first one plus that of the initial vector. */
  lemma CfbByBlocks(enc: Cipher, iv: Block, p: seq<bv8>, k: nat)
    requires k < |p|
    ensures var c := Encrypted(enc, Feedback(iv, 0), p);
      c[k] == Add(enc(Previous(iv, c, k / 16))[k % 16], p[k])
  {
    hide Absorbed, Add, Encrypted, Ready;
    var s := Feedback(iv, 0);
    var c := Encrypted(enc, s, p);
    var before := c[..k];
    EncryptedByte(enc, s, p, k);
    RegisterAt(enc, iv, before);
    ReadyHolds(enc, iv, before, Absorbed(enc, s, before));
    PreviousOfPrefix(iv, c, k);
  }

  lemma PreviousOfPrefix(iv: Block, c: seq<bv8>, k: nat)
    requires k <= |c|
    ensures Previous(iv, c[..k], k / 16) == Previous(iv, c, k / 16)
  {
    var j := k / 16;
    if j > 0 {
      assert c[..k][16 * j - 16..16 * j] == c[16 * j - 16..16 * j];
    }
  }

  // --- CTR ---

  /** A counter block as a big-endian number. */
  function Number(b: seq<bv8>): nat {
    if b == [] then 0 else 256 * Number(b[..|b| - 1]) + b[|b| - 1] as nat
  }

  function Pow256(n: nat): (p: nat)
    ensures p > 0
  {
    if n == 0 then 1 else 256 * Pow256(n - 1)
  }

  function Succ(b: bv8): bv8 {
    b + 1
  }

  /** The loop that adds one with carry, from the last byte. */
  function Increment(b: seq<bv8>): (r: seq<bv8>)
    ensures |r| == |b|
  {
    if b == [] then []
    else if b[|b| - 1] == 0xFF then Increment(b[..|b| - 1]) + [0]
    else b[..|b| - 1] + [Succ(b[|b| - 1])]
  }

  lemma {:induction false} NumberBound(b: seq<bv8>)
    ensures Number(b) < Pow256(|b|)
  {
    if b != [] {
      NumberBound(b[..|b| - 1]);
    }
  }

  lemma NextByte(b: bv8)
    requires b != 0xFF
    ensures Succ(b) as nat == b as nat + 1
  {
  }

  /** The counter is a number modulo 2^128. */
  lemma {:induction false} IncrementAddsOne(b: seq<bv8>)
    ensures Number(Increment(b)) == if Number(b) + 1 == Pow256(|b|) then 0 else Number(b) + 1
  {
    if b != [] {
      var init, last := b[..|b| - 1], b[|b| - 1];
      NumberBound(init);
      assert Increment(b)[..|b| - 1] == if last == 0xFF then Increment(init) else init;
      if last == 0xFF {
        IncrementAddsOne(init);
      } else {
        NextByte(last);
      }
    }
  }

  datatype Counter = Counter(counter: Block, stream: Block, n: nat)

  /** The counter state when the next byte of the stream is about to be used. */
  function Refilled(enc: Cipher, s: Counter): (t: Counter)
    ensures t.n == s.n
  {
    if s.n == 0 then Counter(Increment(s.counter), enc(s.counter), 0) else s
  }

  function Advanced(enc: Cipher, s: Counter): (t: Counter)
    requires s.n < 16
    ensures t.n == (s.n + 1) % 16
  {
    Refilled(enc, s).(n := (s.n + 1) % 16)
  }

  function After(enc: Cipher, s: Counter, len: nat): (t: Counter)
    requires s.n < 16
    ensures t.n < 16
  {
    if len == 0 then s else Advanced(enc, After(enc, s, len - 1))
  }

  function CryptByte(enc: Cipher, s: Counter, b: bv8): bv8
    requires s.n < 16
  {
    Add(b, Refilled(enc, s).stream[s.n])
  }

  /** What one call computes from its input. */
  function Crypt(enc: Cipher, s: Counter, data: seq<bv8>): (r: seq<bv8>)
    requires s.n < 16
    ensures |r| == |data|
  {
    if data == [] then []
    else Crypt(enc, s, data[..|data| - 1]) + [CryptByte(enc, After(enc, s, |data| - 1), data[|data| - 1])]
  }

  lemma CryptLast(enc: Cipher, s: Counter, data: seq<bv8>, b: bv8)
    requires s.n < 16
    ensures Crypt(enc, s, data + [b]) == Crypt(enc, s, data) + [CryptByte(enc, After(enc, s, |data|), b)]
  {
    hide After, CryptByte;
    assert (data + [b])[..|data|] == data;
  }

  lemma {:induction false} AfterSplit(enc: Cipher, s: Counter, a: nat, b: nat)
    requires s.n < 16
    ensures After(enc, s, a + b) == After(enc, After(enc, s, a), b)
  {
    if b > 0 {
      hide Advanced;
      AfterSplit(enc, s, a, b - 1);
    }
  }

  /** However the data is split over calls, the output is the same. */
  lemma {:induction false} CryptSplit(enc: Cipher, s: Counter, a: seq<bv8>, b: seq<bv8>)
    requires s.n < 16
    ensures Crypt(enc, s, a + b) == Crypt(enc, s, a) + Crypt(enc, After(enc, s, |a|), b)
    decreases |b|
  {
    hide After, Crypt, CryptByte;
    var t := After(enc, s, |a|);
    if b == [] {
      CryptNothing(enc, t);
      assert a + b == a;
    } else {
      var init, last := b[..|b| - 1], b[|b| - 1];
      AddLast(a, b);
      CryptSplit(enc, s, a, init);
      CryptLast(enc, s, a + init, last);
      CryptLast(enc, t, init, last);
      AfterSplit(enc, s, |a|, |init|);
      assert |a + init| == |a| + |init|;
    }
  }

  lemma CryptNothing(enc: Cipher, s: Counter)
    requires s.n < 16
    ensures Crypt(enc, s, []) == []
  {
  }

  /** Applying the mode twice from the same state gives the data back. */
  lemma {:induction false} CryptInverts(enc: Cipher, s: Counter, data: seq<bv8>)
    requires s.n < 16
    ensures Crypt(enc, s, Crypt(enc, s, data)) == data
    decreases |data|
  {
    if data != [] {
      hide After, Crypt, Refilled, Add;
      var init, last := data[..|data| - 1], data[|data| - 1];
      var t := After(enc, s, |init|);
      AddLast([], data);
      CryptInverts(enc, s, init);
      CryptLast(enc, s, init, last);
      CryptLast(enc, s, Crypt(enc, s, init), CryptByte(enc, t, last));
      AddSelf(last, Refilled(enc, t).stream[t.n]);
    }
  }

  lemma {:induction false} CryptAt(enc: Cipher, s: Counter, data: seq<bv8>, k: nat)
    requires s.n < 16 && k < |data|
    ensures Crypt(enc, s, data)[k] == CryptByte(enc, After(enc, s, k), data[k])
    decreases |data|
  {
    hide After, CryptByte;
    if k < |data| - 1 {
      CryptAt(enc, s, data[..|data| - 1], k);
    }
  }

  /** The j-th counter block after c. */
  function CounterBlock(c: Block, j: nat): Block {
    if j == 0 then c else Increment(CounterBlock(c, j - 1))
  }

  lemma {:induction false} CounterNumber(c: Block, j: nat)
    ensures Number(CounterBlock(c, j)) == (Number(c) + j) % Pow256(16)
  {
    hide Pow256, Number, Increment;
    NumberBound(c);
    if j > 0 {
      CounterNumber(c, j - 1);
      NumberBound(CounterBlock(c, j - 1));
      IncrementAddsOne(CounterBlock(c, j - 1));
      NextModulo(Number(c) + j - 1, Pow256(16));
    }
  }

  lemma NextModulo(x: nat, m: nat)
    requires m > 0
    ensures (x + 1) % m == if x % m + 1 == m then 0 else x % m + 1
  {
    var q, r := x / m, x % m;
    if r + 1 == m {
      assert x + 1 == m * (q + 1);
      Remainder(x + 1, m, q + 1, 0);
    } else {
      Remainder(x + 1, m, q, r + 1);
    }
  }

  lemma Remainder(x: nat, m: nat, q: nat, r: nat)
    requires m > 0 && r < m && x == m * q + r
    ensures x % m == r
  {
    var d := x / m - q;
    assert m * d == r - x % m;
  }

  /** The state after k bytes of a message that began at offset 0. */
  ghost predicate StreamAt(enc: Cipher, s: Counter, k: nat, t: Counter) {
    var j, i := k / 16, k % 16;
    && t.n == i
    && t.counter == CounterBlock(s.counter, if i == 0 then j else j + 1)
    && (i > 0 ==> t.stream == enc(CounterBlock(s.counter, j)))
  }

  lemma {:induction false} StreamState(enc: Cipher, s: Counter, k: nat)
    requires s.n == 0
    ensures StreamAt(enc, s, k, After(enc, s, k))
  {
    if k > 0 {
      StreamState(enc, s, k - 1);
      StreamNext(enc, s, k - 1, After(enc, s, k - 1));
    }
  }

  lemma StreamNext(enc: Cipher, s: Counter, k: nat, t: Counter)
    requires StreamAt(enc, s, k, t) && t.n < 16
    ensures StreamAt(enc, s, k + 1, Advanced(enc, t))
  {
    hide Increment;
    var j, i := k / 16, k % 16;
    if i == 15 {
      assert (k + 1) / 16 == j + 1;
    } else {
      assert (k + 1) / 16 == j;
    }
  }

  /** Section 6.5 of NIST SP 800-38A: block j is the data plus the encrypted counter block number j, whose
      value is the initial counter plus j modulo 2^128. */
  lemma CtrByBlocks(enc: Cipher, s: Counter, data: seq<bv8>, k: nat)
    requires s.n == 0 && k < |data|
    ensures Crypt(enc, s, data)[k] == Add(data[k], enc(CounterBlock(s.counter, k / 16))[k % 16])
    ensures Number(CounterBlock(s.counter, k / 16)) == (Number(s.counter) + k / 16) % Pow256(16)
  {
    hide Add, After, Crypt, Increment, CounterBlock, Number, Pow256, StreamAt, Refilled;
    CryptAt(enc, s, data, k);
    StreamState(enc, s, k);
    RefilledHolds(enc, s, k, After(enc, s, k));
    CounterNumber(s.counter, k / 16);
  }

  lemma RefilledHolds(enc: Cipher, s: Counter, k: nat, t: Counter)
    requires StreamAt(enc, s, k, t)
    ensures t.n == k % 16 && Refilled(enc, t).stream == enc(CounterBlock(s.counter, k / 16))
  {
    hide CounterBlock, Increment;
  }
}
