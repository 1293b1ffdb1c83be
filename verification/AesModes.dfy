/** `mbedtls_aes_crypt_cfb128` and `mbedtls_aes_crypt_ctr` of mid/aes_e/aes_e.c, over the block cipher they
    call, proved against `StreamModes`. */
module AesModes {
  import opened GaloisField
  import opened StreamModes

  /** One encryption of a buffer onto itself. */
  method EncryptInPlace(enc: Cipher, iv: array<bv8>)
    requires iv.Length == 16
    modifies iv
    ensures iv[..] == enc(old(iv[..]))
  {
    var block: Block := enc(iv[..]);
    forall i | 0 <= i < 16 { iv[i] := block[i]; }
  }

  /** One round of the encrypting loop. */
  method EncryptStep(enc: Cipher, iv: array<bv8>, n0: nat, p: bv8) returns (c: bv8, n: nat)
    requires iv.Length == 16 && n0 < 16
    modifies iv
    ensures c == EncryptByte(enc, Feedback(old(iv[..]), n0), p)
    ensures Feedback(iv[..], n) == Absorb(enc, Feedback(old(iv[..]), n0), c)
  {
    hide Add;
    n := n0;
    if n == 0 {
      EncryptInPlace(enc, iv);
    }
    ghost var ready := iv[..];
    iv[n] := Add(iv[n], p);
    c := iv[n];
    assert iv[..] == ready[n := c];
    n := (n + 1) % 16;
  }

  /** One round of the decrypting loop. */
  method DecryptStep(enc: Cipher, iv: array<bv8>, n0: nat, c: bv8) returns (p: bv8, n: nat)
    requires iv.Length == 16 && n0 < 16
    modifies iv
    ensures p == DecryptByte(enc, Feedback(old(iv[..]), n0), c)
    ensures Feedback(iv[..], n) == Absorb(enc, Feedback(old(iv[..]), n0), c)
  {
    hide Add;
    n := n0;
    if n == 0 {
      EncryptInPlace(enc, iv);
    }
    ghost var ready := iv[..];
    p := Add(c, iv[n]);
    iv[n] := c;
    assert iv[..] == ready[n := c];
    n := (n + 1) % 16;
  }

  /** `mbedtls_aes_crypt_cfb128`. */
  method CryptCfb128(enc: Cipher, decrypt: bool, ivOff: nat, iv: array<bv8>, input: seq<bv8>, output: array<bv8>)
    returns (n: nat)
    requires iv.Length == 16 && ivOff < 16 && output.Length == |input| && iv != output
    modifies iv, output
    ensures n < 16
    ensures var s := Feedback(old(iv[..]), ivOff);
      && output[..] == (if decrypt then Decrypted(enc, s, input) else Encrypted(enc, s, input))
      && Feedback(iv[..], n) == Absorbed(enc, s, if decrypt then input else Encrypted(enc, s, input))
  {
    hide EncryptByte, DecryptByte, Absorb, Absorbed, Encrypted, Decrypted;
    ghost var s := Feedback(iv[..], ivOff);
    n := ivOff;
    Nothing(enc, s);
    ghost var done: seq<bv8> := [];
    if decrypt {
      for k := 0 to |input|
        invariant n < 16 && iv.Length == 16 && |done| == k && (forall i :: 0 <= i < k ==> output[i] == done[i])
        invariant done == Decrypted(enc, s, input[..k]) && Feedback(iv[..], n) == Absorbed(enc, s, input[..k])
      {
        var b;
        b, n := DecryptStep(enc, iv, n, input[k]);
        DecryptedLast(enc, s, input[..k], input[k]);
        AbsorbedLast(enc, s, input[..k], input[k]);
        assert input[..k] + [input[k]] == input[..k + 1];
        output[k] := b;
        done := done + [b];
      }
    } else {
      for k := 0 to |input|
        invariant n < 16 && iv.Length == 16 && |done| == k && (forall i :: 0 <= i < k ==> output[i] == done[i])
        invariant done == Encrypted(enc, s, input[..k]) && Feedback(iv[..], n) == Absorbed(enc, s, done)
      {
        var b;
        b, n := EncryptStep(enc, iv, n, input[k]);
        EncryptedLast(enc, s, input[..k], input[k]);
        AbsorbedLast(enc, s, done, b);
        assert input[..k] + [input[k]] == input[..k + 1];
        output[k] := b;
        done := done + [b];
      }
    }
    assert input[..|input|] == input && output[..] == done;
  }

  // --- CTR ---

  function Zeros(n: nat): (z: seq<bv8>)
    ensures |z| == n && forall i :: 0 <= i < n ==> z[i] == 0
  {
    seq(n, _ => 0)
  }

  /** A carry runs through the trailing bytes 0xFF. */
  lemma {:induction false} IncrementCarries(b: seq<bv8>, i: nat)
    requires i <= |b| && forall k :: i <= k < |b| ==> b[k] == 0xFF
    ensures Increment(b) == Increment(b[..i]) + Zeros(|b| - i)
    decreases |b| - i
  {
    if i == |b| {
      assert b[..i] == b;
    } else {
      var init := b[..|b| - 1];
      IncrementCarries(init, i);
      assert init[..i] == b[..i];
      assert Zeros(|init| - i) + [0] == Zeros(|b| - i);
    }
  }

  /** The loop that advances the counter. */
  method IncrementInPlace(counter: array<bv8>)
    requires counter.Length == 16
    modifies counter
    ensures counter[..] == Increment(old(counter[..]))
  {
    hide Increment, Zeros, Succ;
    ghost var b := counter[..];
    var i := 16;
    while i > 0
      invariant 0 <= i <= 16
      invariant forall k :: i <= k < 16 ==> b[k] == 0xFF && counter[k] == 0
      invariant forall k :: 0 <= k < i ==> counter[k] == b[k]
    {
      WrapsAt(b[i - 1]);
      counter[i - 1] := Succ(counter[i - 1]);
      if counter[i - 1] != 0 {
        IncrementStops(b, i, counter[..]);
        return;
      }
      i := i - 1;
    }
    IncrementCarries(b, 0);
    assert counter[..] == Zeros(16);
  }

  lemma IncrementStops(b: seq<bv8>, i: nat, r: seq<bv8>)
    requires 0 < i <= |b| == |r| && b[i - 1] != 0xFF && r[i - 1] == Succ(b[i - 1])
    requires forall k :: i <= k < |b| ==> b[k] == 0xFF && r[k] == 0
    requires forall k :: 0 <= k < i - 1 ==> r[k] == b[k]
    ensures r == Increment(b)
  {
    IncrementCarries(b, i);
    hide Succ;
    var c := b[..i];
    assert c[|c| - 1] == b[i - 1] && c[..|c| - 1] == b[..i - 1];
    assert Increment(c) == b[..i - 1] + [Succ(b[i - 1])];
    hide Increment;
    assert r == Increment(c) + Zeros(|b| - i);
  }

  lemma WrapsAt(b: bv8)
    ensures Succ(b) == 0 <==> b == 0xFF
  {
  }

  /** One round of the loop of `mbedtls_aes_crypt_ctr`. */
  method CounterStep(enc: Cipher, counter: array<bv8>, stream: array<bv8>, n0: nat, b: bv8) returns (c: bv8, n: nat)
    requires counter.Length == 16 && stream.Length == 16 && counter != stream && n0 < 16
    modifies counter, stream
    ensures var s := Counter(old(counter[..]), old(stream[..]), n0);
      c == CryptByte(enc, s, b) && Counter(counter[..], stream[..], n) == Advanced(enc, s)
  {
    hide Add, Increment;
    ghost var s := Counter(counter[..], stream[..], n0);
    n := n0;
    if n == 0 {
      var block: Block := enc(counter[..]);
      forall i | 0 <= i < 16 { stream[i] := block[i]; }
      assert stream[..] == block && counter[..] == s.counter;
      IncrementInPlace(counter);
      assert stream[..] == block && counter[..] == Increment(s.counter);
    }
    assert Counter(counter[..], stream[..], n) == Refilled(enc, s);
    c := Add(b, stream[n]);
    n := (n + 1) % 16;
  }

  /** `mbedtls_aes_crypt_ctr`. */
  method CryptCtr(enc: Cipher, ncOff: nat, counter: array<bv8>, stream: array<bv8>, input: seq<bv8>, output: array<bv8>)
    returns (n: nat)
    requires counter.Length == 16 && stream.Length == 16 && ncOff < 16 && output.Length == |input|
    requires counter != stream && output != counter && output != stream
    modifies counter, stream, output
    ensures n < 16
    ensures var s := Counter(old(counter[..]), old(stream[..]), ncOff);
      output[..] == Crypt(enc, s, input) && Counter(counter[..], stream[..], n) == After(enc, s, |input|)
  {
    hide CryptByte, Advanced, Crypt;
    ghost var s := Counter(counter[..], stream[..], ncOff);
    n := ncOff;
    CryptNothing(enc, s);
    ghost var done: seq<bv8> := [];
    for k := 0 to |input|
      invariant n < 16 && |done| == k && (forall i :: 0 <= i < k ==> output[i] == done[i])
      invariant done == Crypt(enc, s, input[..k]) && Counter(counter[..], stream[..], n) == After(enc, s, k)
    {
      var b;
      b, n := CounterStep(enc, counter, stream, n, input[k]);
      CryptLast(enc, s, input[..k], input[k]);
      assert input[..k] + [input[k]] == input[..k + 1];
      output[k] := b;
      done := done + [b];
    }
    assert input[..|input|] == input && output[..] == done;
  }
}
