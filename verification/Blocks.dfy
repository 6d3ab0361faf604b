/** What SHA-1 and MD5 share: a message is padded to whole 64-byte blocks and the
    blocks are folded into a chaining state (FIPS 180-4 sections 5.1.1 and 6.1.2,
    RFC 1321 sections 3.1 to 3.4). */
module Blocks {
  import opened Bytes
  import opened Modular

  type Block = b: seq<byte> | |b| == 64 witness seq(64, _ => 0)

  /** The chaining state after the whole blocks of s; an unfinished last block is not read. */
  function Fold<S>(f: (S, Block) -> S, st: S, s: seq<byte>): S
    decreases |s|
  {
    if |s| < 64 then st else Fold(f, f(st, s[..64]), s[64..])
  }

  lemma {:induction false} FoldSnoc<S>(f: (S, Block) -> S, st: S, s: seq<byte>, blk: Block)
    requires |s| % 64 == 0
    ensures Fold(f, st, s + blk) == f(Fold(f, st, s), blk)
    decreases |s|
  {
    if s == [] {
      assert s + blk == blk;
      assert blk[..64] == blk;
    } else {
      assert (s + blk)[..64] == s[..64];
      assert (s + blk)[64..] == s[64..] + blk;
      FoldSnoc(f, f(st, s[..64]), s[64..], blk);
    }
  }

  function Zeros(n: nat): (z: seq<byte>)
    ensures |z| == n
    ensures forall i :: 0 <= i < n ==> z[i] == 0
  {
    if n == 0 then [] else Zeros(n - 1) + [0]
  }

  /** The number of zero bytes after the 0x80 byte: found by counting up, one byte at a
      time, until eight bytes are missing to a whole block. */
  function ZeroBytes(n: nat): nat
    decreases Gap(n)
  {
    GapStep(n);
    if FillsUp(n, 0) then 0 else 1 + ZeroBytes(n + 1)
  }

  predicate FillsUp(n: nat, z: nat)
  {
    (n + 1 + z) % 64 == 56
  }

  function Gap(n: nat): nat
  {
    if n % 64 <= 55 then 55 - n % 64 else 119 - n % 64
  }

  lemma GapStep(n: nat)
    ensures FillsUp(n, 0) <==> Gap(n) == 0
    ensures Gap(n) > 0 ==> Gap(n + 1) == Gap(n) - 1
  {
    NextMod64(n);
  }

  lemma NextMod64(n: nat)
    ensures (n + 1) % 64 == if n % 64 == 63 then 0 else n % 64 + 1
  {
    var q, r := n / 64, n % 64;
    if r == 63 {
      Rest64(n + 1, q + 1, 0);
    } else {
      Rest64(n + 1, q, r + 1);
    }
  }

  /** It is the smallest solution of "l + 1 + k = 448 mod 512", in bytes. */
  lemma {:induction false} ZeroBytesSmallest(n: nat)
    ensures FillsUp(n, ZeroBytes(n))
    ensures forall z: nat :: FillsUp(n, z) ==> ZeroBytes(n) <= z
    ensures ZeroBytes(n) == Gap(n)
    decreases Gap(n)
  {
    GapStep(n);
    if !FillsUp(n, 0) {
      ZeroBytesSmallest(n + 1);
      hide Gap;
      forall z: nat | FillsUp(n, z)
        ensures ZeroBytes(n) <= z
      {
        assert FillsUp(n + 1, z - 1);
      }
    }
  }

  /** The padded message, given the eight bytes that encode its length in bits. */
  function Pad(m: seq<byte>, lengthBytes: seq<byte>): (p: seq<byte>)
    requires |lengthBytes| == 8
    ensures |p| % 64 == 0
  {
    ZeroBytesSmallest(|m|);
    m + [0x80] + Zeros(ZeroBytes(|m|)) + lengthBytes
  }

  /** The bytes of a stream that arrives in chunks. */
  function Concat(chunks: seq<seq<byte>>): seq<byte>
  {
    if chunks == [] then [] else Concat(chunks[..|chunks| - 1]) + chunks[|chunks| - 1]
  }
}
