/** Hashing block by block: the value of a compression function chained over the full 64-byte blocks
    of a message, and the padding that MD5 and SHA-1 share. */
module BlockChain {
  import opened Basics

  /** The length of the full blocks among n bytes. */
  function Whole(n: nat): (w: nat)
    ensures w <= n && (w == 0 || w >= 64)
  {
    n / 64 * 64
  }

  lemma WholeAnd(n: nat, r: nat)
    requires n % 64 == 0 && r < 64
    ensures Whole(n + r) == n
  {
  }

  /** The chaining value after all full blocks of m; a rest shorter than a block is ignored. */
  ghost function Chain<S>(f: (S, Bytes) -> S, iv: S, m: Bytes): S
    decreases |m|
  {
    var n := Whole(|m|);
    if n == 0 then iv else f(Chain(f, iv, m[..n - 64]), m[n - 64..n])
  }

  lemma ChainLast<S>(f: (S, Bytes) -> S, iv: S, m: Bytes)
    requires Whole(|m|) > 0
    ensures Chain(f, iv, m) == f(Chain(f, iv, m[..Whole(|m|) - 64]), m[Whole(|m|) - 64..Whole(|m|)])
  {
    hide Whole;
  }

  lemma ChainRest<S>(f: (S, Bytes) -> S, iv: S, m: Bytes, rest: Bytes)
    requires |m| % 64 == 0 && |rest| < 64
    ensures Chain(f, iv, m + rest) == Chain(f, iv, m)
  {
    hide Whole;
    var n := |m|;
    WholeAnd(n, |rest|);
    WholeAnd(n, 0);
    if n == 0 {
      assert Chain(f, iv, m) == iv == Chain(f, iv, m + rest);
    } else {
      hide Chain;
      ChainLast(f, iv, m);
      ChainLast(f, iv, m + rest);
      assert (m + rest)[..n - 64] == m[..n - 64] && (m + rest)[n - 64..n] == m[n - 64..n];
    }
  }

  lemma ChainBlock<S>(f: (S, Bytes) -> S, iv: S, m: Bytes, block: Bytes)
    requires |m| % 64 == 0 && |block| == 64
    ensures Chain(f, iv, m + block) == f(Chain(f, iv, m), block)
  {
    hide Whole, Chain;
    var whole := m + block;
    WholeAnd(|whole|, 0);
    ChainLast(f, iv, whole);
    assert whole[..|m|] == m && whole[|m|..|whole|] == block;
  }

  function Zeros(n: nat): (z: Bytes)
    ensures |z| == n && forall i :: 0 <= i < n ==> z[i] == 0
  {
    seq(n, _ => 0)
  }

  /** How many zero bytes follow the 0x80 so that the length field ends a block. */
  function ZeroCount(n: nat): nat {
    (119 - n % 64) % 64
  }

  /** The padded message for a given eight-byte length field. */
  function Padded(m: Bytes, lengthField: Bytes): (p: Bytes)
    requires |lengthField| == 8
    ensures |p| % 64 == 0
  {
    m + [0x80] + Zeros(ZeroCount(|m|)) + lengthField
  }

  /** The message that was handed over piece by piece. */
  function Joined(pieces: seq<Bytes>): Bytes {
    if pieces == [] then [] else Joined(pieces[..|pieces| - 1]) + pieces[|pieces| - 1]
  }
}
