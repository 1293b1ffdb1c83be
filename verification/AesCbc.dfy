/** `mbedtls_aes_crypt_cbc` of mid/aes_e/aes_e.c with the padding of mid/aes_e/padding.c, over the block
    cipher it calls: decryption gives back every message. */
module AesCbc {
  import opened GaloisField
  import opened StreamModes
  import AesBlock

  function AddBlocks(a: Block, b: Block): Block {
    seq(16, i requires 0 <= i < 16 => Add(a[i], b[i]))
  }

  lemma AddTwice(a: Block, b: Block)
    ensures AddBlocks(AddBlocks(a, b), b) == a
  {
    hide Add;
    forall i | 0 <= i < 16 ensures Add(Add(a[i], b[i]), b[i]) == a[i] {
      AddSelf(a[i], b[i]);
    }
  }

  // --- section 6.2 of NIST SP 800-38A ---

  function LastBlock(s: seq<bv8>): Block
    requires |s| >= 16
  {
    s[|s| - 16..]
  }

  /** The block that is added to the next plaintext block. */
  function ChainValue(iv: Block, c: seq<bv8>): Block
    requires |c| % 16 == 0
  {
    if c == [] then iv else LastBlock(c)
  }

  function CbcEncrypted(enc: Cipher, iv: Block, p: seq<bv8>): (c: seq<bv8>)
    requires |p| % 16 == 0
    ensures |c| == |p|
  {
    if p == [] then []
    else
      var c := CbcEncrypted(enc, iv, p[..|p| - 16]);
      c + enc(AddBlocks(LastBlock(p), ChainValue(iv, c)))
  }

  function CbcDecrypted(dec: Cipher, iv: Block, c: seq<bv8>): (p: seq<bv8>)
    requires |c| % 16 == 0
    ensures |p| == |c|
  {
    if c == [] then []
    else
      var before := c[..|c| - 16];
      CbcDecrypted(dec, iv, before) + AddBlocks(dec(LastBlock(c)), ChainValue(iv, before))
  }

  ghost predicate Inverse(enc: Cipher, dec: Cipher) {
    forall b: Block :: dec(enc(b)) == b
  }

  lemma EncryptedBlock(enc: Cipher, iv: Block, p: seq<bv8>, b: Block)
    requires |p| % 16 == 0
    ensures var c := CbcEncrypted(enc, iv, p);
      CbcEncrypted(enc, iv, p + b) == c + enc(AddBlocks(b, ChainValue(iv, c)))
  {
    hide AddBlocks, ChainValue;
    assert (p + b)[..|p|] == p && LastBlock(p + b) == b;
  }

  lemma DecryptedBlock(dec: Cipher, iv: Block, c: seq<bv8>, b: Block)
    requires |c| % 16 == 0
    ensures CbcDecrypted(dec, iv, c + b) == CbcDecrypted(dec, iv, c) + AddBlocks(dec(b), ChainValue(iv, c))
  {
    hide AddBlocks, ChainValue;
    assert (c + b)[..|c|] == c && LastBlock(c + b) == b;
  }

  lemma BlockSum(a: Block, b: Block, x: Block)
    requires forall i :: 0 <= i < 16 ==> x[i] == Add(a[i], b[i])
    ensures AddBlocks(a, b) == x
  {
    hide Add;
  }

  lemma PreviousOfFront(iv: Block, c: seq<bv8>, rest: seq<bv8>, j: nat)
    requires |c| % 16 == 0 && 16 * j <= |c|
    ensures Previous(iv, c + rest, j) == Previous(iv, c, j) && Previous(iv, c, |c| / 16) == ChainValue(iv, c)
  {
  }

  /** Section 6.2 of NIST SP 800-38A: every ciphertext block is the encryption of the sum of the plaintext
      block and the previous ciphertext block, the first one of that with the initial vector. */
  lemma {:induction false} CbcByBlocks(enc: Cipher, iv: Block, p: seq<bv8>, j: nat, x: Block)
    requires |p| % 16 == 0 && 16 * j + 16 <= |p|
    requires var c := CbcEncrypted(enc, iv, p);
      forall i :: 0 <= i < 16 ==> x[i] == Add(p[16 * j + i], Previous(iv, c, j)[i])
    ensures CbcEncrypted(enc, iv, p)[16 * j..16 * j + 16] == enc(x)
    decreases |p|
  {
    hide Add, AddBlocks, ChainValue, Previous, CbcEncrypted;
    var init, b := p[..|p| - 16], LastBlock(p);
    assert p == init + b;
    var c := CbcEncrypted(enc, iv, init);
    EncryptedBlock(enc, iv, init, b);
    var last := enc(AddBlocks(b, ChainValue(iv, c)));
    PreviousOfFront(iv, c, last, j);
    if 16 * j + 16 <= |init| {
      CbcByBlocks(enc, iv, init, j, x);
      assert (c + last)[16 * j..16 * j + 16] == c[16 * j..16 * j + 16];
    } else {
      BlockSum(b, ChainValue(iv, c), x);
      assert (c + last)[16 * j..16 * j + 16] == last;
    }
  }

  /** In decryption every plaintext block is the sum of the decrypted ciphertext block and the previous
      ciphertext block. */
  lemma {:induction false} CbcPlaintextByBlocks(dec: Cipher, iv: Block, c: seq<bv8>, j: nat, i: nat)
    requires |c| % 16 == 0 && 16 * j + 16 <= |c| && i < 16
    ensures CbcDecrypted(dec, iv, c)[16 * j + i] == Add(dec(c[16 * j..16 * j + 16])[i], Previous(iv, c, j)[i])
    decreases |c|
  {
    hide Add, ChainValue, Previous, CbcDecrypted;
    var init, b := c[..|c| - 16], LastBlock(c);
    assert c == init + b;
    DecryptedBlock(dec, iv, init, b);
    PreviousOfFront(iv, init, b, j);
    if 16 * j + 16 <= |init| {
      CbcPlaintextByBlocks(dec, iv, init, j, i);
      assert c[16 * j..16 * j + 16] == init[16 * j..16 * j + 16];
    } else {
      assert c[16 * j..16 * j + 16] == b;
    }
  }

  lemma {:induction false} CbcInverts(enc: Cipher, dec: Cipher, iv: Block, p: seq<bv8>)
    requires Inverse(enc, dec) && |p| % 16 == 0
    ensures CbcDecrypted(dec, iv, CbcEncrypted(enc, iv, p)) == p
    decreases |p|
  {
    if p != [] {
      hide AddBlocks, ChainValue, CbcEncrypted, CbcDecrypted;
      var init, b := p[..|p| - 16], LastBlock(p);
      assert p == init + b;
      CbcInverts(enc, dec, iv, init);
      var c := CbcEncrypted(enc, iv, init);
      EncryptedBlock(enc, iv, init, b);
      DecryptedBlock(dec, iv, c, enc(AddBlocks(b, ChainValue(iv, c))));
      AddTwice(b, ChainValue(iv, c));
    }
  }

  // --- section 6.3 of RFC 5652 ---

  /** The number of padding bytes, which is also their value. */
  function PadLen(n: nat): (k: nat)
    ensures 1 <= k <= 16 && (n + k) % 16 == 0
  {
    16 - n % 16
  }

  function Padded(m: seq<bv8>): (p: seq<bv8>)
    ensures |p| % 16 == 0 && |p| == |m| + PadLen(|m|)
  {
    m + seq(PadLen(|m|), _ => ByteOf(PadLen(|m|)))
  }

  /** What the source accepts as padding: a last byte k, not zero and not above the length, and k bytes of
      that value. */
  ghost predicate WellPadded(p: seq<bv8>) {
    && p != []
    && var k := p[|p| - 1] as nat;
       0 < k <= |p| && forall i :: |p| - k <= i < |p| ==> p[i] == p[|p| - 1]
  }

  lemma PaddedIsWellPadded(m: seq<bv8>)
    ensures var p := Padded(m); WellPadded(p) && |p| - p[|p| - 1] as nat == |m|
  {
  }

  const INVALID_INPUT_LENGTH := -0x0022
  const INVALID_PADDING := -0x6200

  /** `add_pkcs_padding` on a buffer of 16 bytes. */
  method AddPadding(output: array<bv8>, dataLen: nat)
    requires output.Length == 16 && dataLen < 16
    modifies output
    ensures output[..] == old(output[..dataLen]) + seq(16 - dataLen, _ => ByteOf(16 - dataLen))
  {
    hide ByteOf;
    var paddingLen := 16 - dataLen;
    for i := 0 to paddingLen
      invariant forall j :: 0 <= j < dataLen ==> output[j] == old(output[j])
      invariant forall j :: dataLen <= j < dataLen + i ==> output[j] == ByteOf(paddingLen)
    {
      output[dataLen + i] := ByteOf(paddingLen);
    }
  }

  /** `get_pkcs_padding`, which inspects all bytes whatever the padding is. */
  method GetPadding(input: seq<bv8>) returns (ret: int, dataLen: int)
    requires 0 < |input| < 0x1_0000_0000
    ensures ret == if WellPadded(input) then 0 else -0x6200
    ensures dataLen == (|input| - input[|input| - 1] as nat) % 0x1_0000_0000
    ensures ret == 0 ==> dataLen == |input| - input[|input| - 1] as nat
  {
    var paddingByte := input[|input| - 1];
    var paddingLen := paddingByte as nat;
    dataLen := (|input| - paddingLen) % 0x1_0000_0000;
    var bad := paddingLen > |input|;
    bad := bad || paddingLen == 0;
    var padIdx := (|input| - paddingLen) % 0x1_0000_0000;
    for i := 0 to |input|
      invariant bad <==> (paddingLen > |input| || paddingLen == 0
                         || (exists j :: 0 <= j < i && padIdx <= j && input[j] != paddingByte))
    {
      bad := bad || (input[i] != paddingByte && i >= padIdx);
    }
    ret := if bad then INVALID_PADDING else 0;
  }

  // --- the mode ---

  method StoreAt(output: array<bv8>, pos: nat, b: Block)
    requires pos + 16 <= output.Length
    modifies output
    ensures forall i :: 0 <= i < output.Length ==> output[i] == if pos <= i < pos + 16 then b[i - pos] else old(output[i])
  {
    forall i | 0 <= i < 16 { output[pos + i] := b[i]; }
  }

  /** `mbedtls_aes_crypt_cbc` for encryption. */
  method EncryptCbc(enc: Cipher, iv: array<bv8>, input: seq<bv8>, output: array<bv8>) returns (ret: int, outlen: nat)
    requires iv.Length == 16 && iv != output && output.Length >= |Padded(input)|
    modifies iv, output
    ensures ret == 0 && outlen == |Padded(input)| <= output.Length
    ensures output[..outlen] == CbcEncrypted(enc, old(iv[..]), Padded(input))
    ensures iv[..] == ChainValue(old(iv[..]), output[..outlen - 16]) && output[outlen..] == old(output[outlen..])
  {
    hide AddBlocks, ChainValue, CbcEncrypted, Padded, PadBlock;
    ghost var iv0: Block := iv[..];
    var pos := EncryptLoop(enc, iv, input, output);
    ghost var done := output[..pos];
    var rest := input[pos..];
    var temp := PadLast(rest);
    var c := enc(AddBlocks(temp, iv[..]));
    StoreAt(output, pos, c);
    PaddedEnd(input, pos);
    EncryptedBlock(enc, iv0, input[..pos], temp);
    ret, outlen := 0, |input| + 16 - |rest|;
    assert outlen == pos + 16;
    assert output[..outlen] == done + c;
    assert output[..outlen - 16] == done;
  }

  /** The loop of the encryption. */
  method EncryptLoop(enc: Cipher, iv: array<bv8>, input: seq<bv8>, output: array<bv8>) returns (pos: nat)
    requires iv.Length == 16 && iv != output && output.Length >= |input|
    modifies iv, output
    ensures pos % 16 == 0 && pos <= |input| < pos + 16
    ensures output[..pos] == CbcEncrypted(enc, old(iv[..]), input[..pos])
    ensures iv[..] == ChainValue(old(iv[..]), output[..pos]) && output[pos..] == old(output[pos..])
  {
    hide AddBlocks, ChainValue, CbcEncrypted, Add;
    ghost var iv0: Block := iv[..];
    ghost var done: seq<bv8> := [];
    pos := 0;
    CbcNothing(enc, iv0);
    while |input| - pos >= 16
      invariant 0 <= pos <= |input| && pos % 16 == 0 && |done| == pos && iv.Length == 16
      invariant forall i :: 0 <= i < output.Length ==> output[i] == if i < pos then done[i] else old(output[i])
      invariant done == CbcEncrypted(enc, iv0, input[..pos]) && iv[..] == ChainValue(iv0, done)
    {
      EncryptedNext(enc, iv0, input, pos, done);
      done := done + enc(AddBlocks(input[pos..pos + 16], iv[..]));
      EncryptRound(enc, iv, input, output, pos);
      pos := pos + 16;
    }
    assert output[..pos] == done;
  }

  /** One round of that loop. */
  method EncryptRound(enc: Cipher, iv: array<bv8>, input: seq<bv8>, output: array<bv8>, pos: nat)
    requires iv.Length == 16 && iv != output && pos + 16 <= |input| <= output.Length
    modifies iv, output
    ensures var c := enc(AddBlocks(input[pos..pos + 16], old(iv[..])));
      && iv[..] == c
      && forall i :: 0 <= i < output.Length ==> output[i] == if pos <= i < pos + 16 then c[i - pos] else old(output[i])
  {
    hide AddBlocks;
    var c := enc(AddBlocks(input[pos..pos + 16], iv[..]));
    StoreAt(output, pos, c);
    StoreAt(iv, 0, c);
    assert iv[..] == c;
  }

  /** The last block of a message, padded. */
  function PadBlock(rest: seq<bv8>): Block
    requires |rest| < 16
  {
    rest + seq(16 - |rest|, _ => ByteOf(16 - |rest|))
  }

  method PadLast(rest: seq<bv8>) returns (block: Block)
    requires |rest| < 16
    ensures block == PadBlock(rest)
  {
    hide ByteOf;
    var temp := new bv8[16](_ => 0);
    forall i | 0 <= i < |rest| { temp[i] := rest[i]; }
    assert temp[..|rest|] == rest;
    AddPadding(temp, |rest|);
    block := temp[..];
  }

  /** `mbedtls_aes_crypt_cbc` for decryption. */
  method DecryptCbc(dec: Cipher, iv: array<bv8>, input: seq<bv8>, output: array<bv8>) returns (ret: int, outlen: int)
    requires iv.Length == 16 && iv != output && 0 < |input| < 0x1_0000_0000 && output.Length >= |input|
    modifies iv, output
    ensures |input| % 16 != 0 ==>
      ret == -0x0022 && output[..] == old(output[..]) && iv[..] == old(iv[..])
    ensures |input| % 16 == 0 ==>
      var p := CbcDecrypted(dec, old(iv[..]), input);
      && output[..|input|] == p && output[|input|..] == old(output[|input|..])
      && iv[..] == ChainValue(old(iv[..]), input)
      && ret == (if WellPadded(p) then 0 else -0x6200)
      && (ret == 0 ==> outlen == |p| - p[|p| - 1] as nat)
  {
    if |input| % 16 != 0 {
      return INVALID_INPUT_LENGTH, 0;
    }
    DecryptLoop(dec, iv, input, output);
    hide CbcDecrypted;
    ret, outlen := GetPadding(output[..|input|]);
  }

  /** The loop of the decryption. */
  method DecryptLoop(dec: Cipher, iv: array<bv8>, input: seq<bv8>, output: array<bv8>)
    requires iv.Length == 16 && iv != output && |input| % 16 == 0 && output.Length >= |input|
    modifies iv, output
    ensures output[..|input|] == CbcDecrypted(dec, old(iv[..]), input)
    ensures iv[..] == ChainValue(old(iv[..]), input) && output[|input|..] == old(output[|input|..])
  {
    hide AddBlocks, ChainValue, CbcDecrypted, Add;
    ghost var iv0: Block := iv[..];
    ghost var done: seq<bv8> := [];
    var pos := 0;
    CbcNothing(dec, iv0);
    while |input| - pos > 0
      invariant 0 <= pos <= |input| && pos % 16 == 0 && |done| == pos && iv.Length == 16
      invariant forall i :: 0 <= i < output.Length ==> output[i] == if i < pos then done[i] else old(output[i])
      invariant done == CbcDecrypted(dec, iv0, input[..pos]) && iv[..] == ChainValue(iv0, input[..pos])
    {
      DecryptedNext(dec, iv0, input, pos, done);
      done := done + AddBlocks(dec(input[pos..pos + 16]), iv[..]);
      DecryptRound(dec, iv, input, output, pos);
      pos := pos + 16;
    }
    assert input[..|input|] == input && output[..|input|] == done;
  }

  /** One round of that loop. */
  method DecryptRound(dec: Cipher, iv: array<bv8>, input: seq<bv8>, output: array<bv8>, pos: nat)
    requires iv.Length == 16 && iv != output && pos + 16 <= |input| <= output.Length
    modifies iv, output
    ensures var p := AddBlocks(dec(input[pos..pos + 16]), old(iv[..]));
      && iv[..] == input[pos..pos + 16]
      && forall i :: 0 <= i < output.Length ==> output[i] == if pos <= i < pos + 16 then p[i - pos] else old(output[i])
  {
    hide AddBlocks;
    var temp: Block := input[pos..pos + 16];
    StoreAt(output, pos, AddBlocks(dec(temp), iv[..]));
    StoreAt(iv, 0, temp);
    assert iv[..] == temp;
  }

  lemma CbcNothing(f: Cipher, iv: Block)
    ensures CbcEncrypted(f, iv, []) == [] && CbcDecrypted(f, iv, []) == [] && ChainValue(iv, []) == iv
  {
  }

  lemma ChainNext(iv: Block, c: seq<bv8>, b: Block)
    requires |c| % 16 == 0
    ensures ChainValue(iv, c + b) == b
  {
  }

  /** One round of the loop of the encryption. */
  lemma EncryptedNext(enc: Cipher, iv: Block, input: seq<bv8>, pos: nat, done: seq<bv8>)
    requires pos % 16 == 0 && pos + 16 <= |input| && done == CbcEncrypted(enc, iv, input[..pos])
    ensures var c := enc(AddBlocks(input[pos..pos + 16], ChainValue(iv, done)));
      && done + c == CbcEncrypted(enc, iv, input[..pos + 16])
      && ChainValue(iv, done + c) == c
  {
    hide AddBlocks, ChainValue, CbcEncrypted;
    var block: Block := input[pos..pos + 16];
    EncryptedBlock(enc, iv, input[..pos], block);
    assert input[..pos] + block == input[..pos + 16];
    ChainNext(iv, done, enc(AddBlocks(block, ChainValue(iv, done))));
  }

  /** One round of the loop of the decryption. */
  lemma DecryptedNext(dec: Cipher, iv: Block, input: seq<bv8>, pos: nat, done: seq<bv8>)
    requires pos % 16 == 0 && pos + 16 <= |input| && done == CbcDecrypted(dec, iv, input[..pos])
    ensures var temp: Block := input[pos..pos + 16];
      && done + AddBlocks(dec(temp), ChainValue(iv, input[..pos])) == CbcDecrypted(dec, iv, input[..pos + 16])
      && ChainValue(iv, input[..pos + 16]) == temp
  {
    hide AddBlocks, ChainValue, CbcDecrypted;
    var temp: Block := input[pos..pos + 16];
    DecryptedBlock(dec, iv, input[..pos], temp);
    assert input[..pos] + temp == input[..pos + 16];
    ChainNext(iv, input[..pos], temp);
  }

  lemma PaddedEnd(m: seq<bv8>, pos: nat)
    requires pos % 16 == 0 && pos <= |m| < pos + 16
    ensures Padded(m) == m[..pos] + PadBlock(m[pos..])
  {
    hide ByteOf;
    assert |m| % 16 == |m| - pos;
    assert m == m[..pos] + m[pos..];
  }

  /** Every message of every length comes back: what decryption finds is the padded message, its padding is
      accepted, and the length it reports is that of the message. */
  lemma RoundTrip(enc: Cipher, dec: Cipher, iv: Block, m: seq<bv8>)
    requires Inverse(enc, dec)
    ensures var p := CbcDecrypted(dec, iv, CbcEncrypted(enc, iv, Padded(m)));
      WellPadded(p) && |p| - p[|p| - 1] as nat == |m| && p[..|m|] == m
  {
    CbcInverts(enc, dec, iv, Padded(m));
    PaddedIsWellPadded(m);
    hide CbcDecrypted, CbcEncrypted;
  }

  // --- with AES as the block cipher ---

  ghost function AesEncryption(key: seq<bv8>): Cipher
    requires AesBlock.SupportedLength(|key|)
  {
    (b: Block) => AesBlock.EncryptBlock(key, b)
  }

  ghost function AesDecryption(key: seq<bv8>): Cipher
    requires AesBlock.SupportedLength(|key|)
  {
    (b: Block) => AesBlock.DecryptBlock(key, b)
  }

  /** AES under any key is such a block cipher. */
  lemma AesInverse(key: seq<bv8>)
    requires AesBlock.SupportedLength(|key|)
    ensures Inverse(AesEncryption(key), AesDecryption(key))
  {
    hide AesBlock.EncryptBlock, AesBlock.DecryptBlock;
    forall b: Block ensures AesDecryption(key)(AesEncryption(key)(b)) == b {
      AesBlock.DecryptEncryptBlock(key, b);
    }
  }
}
