/** The hash function of FIPS 180-4 section 6.1, in the words of the standard. */
module Sha1Spec {
  import opened Bytes
  import opened Blocks
  import opened Modular

  datatype Regs = Regs(a: word, b: word, c: word, d: word, e: word)

  /** Section 5.3.1. */
  const INITIAL_HASH := Regs(0x67452301, 0xEFCDAB89, 0x98BADCFE, 0x10325476, 0xC3D2E1F0)

  /** Section 4.1.1: Ch, Parity, Maj, Parity. */
  function LogicalFunction(t: nat, x: word, y: word, z: word): word
  {
    if t < 20 then (x & y) ^ (!x & z)
    else if t < 40 then x ^ y ^ z
    else if t < 60 then (x & y) ^ (x & z) ^ (y & z)
    else x ^ y ^ z
  }

  /** Section 4.2.1. */
  function K(t: nat): word
  {
    if t < 20 then 0x5A827999
    else if t < 40 then 0x6ED9EBA1
    else if t < 60 then 0x8F1BBCDC
    else 0xCA62C1D6
  }

  /** Section 6.1.2 step 1, the message schedule. */
  function W(blk: Block, t: nat): word
  {
    if t < 16 then FromBE32(blk[4 * t..4 * t + 4])
    else Expand(W(blk, t - 3), W(blk, t - 8), W(blk, t - 14), W(blk, t - 16))
  }

  function Expand(p: word, q: word, r: word, s: word): word
  {
    Rotl(p ^ q ^ r ^ s, 1)
  }

  /** Section 6.1.2 step 3, one value of t. */
  function Round(r: Regs, t: nat, w: word): Regs
  {
    Regs(Sum(Rotl(r.a, 5), LogicalFunction(t, r.b, r.c, r.d), r.e, w, K(t)), r.a, Rotl(r.b, 30), r.c, r.d)
  }

  function Sum(p: word, f: word, e: word, w: word, k: word): word
  {
    p + f + e + w + k
  }

  function Rounds(r: Regs, blk: Block, n: nat): Regs
  {
    if n == 0 then r else Round(Rounds(r, blk, n - 1), n - 1, W(blk, n - 1))
  }

  /** Section 6.1.2 step 4. */
  function Add(h: Regs, r: Regs): Regs
  {
    Regs(Plus(h.a, r.a), Plus(h.b, r.b), Plus(h.c, r.c), Plus(h.d, r.d), Plus(h.e, r.e))
  }

  function Compress(h: Regs, blk: Block): Regs
  {
    Add(h, Rounds(h, blk, 80))
  }

  /** Byte i of a 32-bit number, most significant first. */
  function ByteOf(w: nat, i: nat): byte
    requires i < 4
  {
    (w / [0x100_0000, 0x1_0000, 0x100, 1][i] % 0x100) as byte
  }

  /** A 64-bit number, most significant byte first: its high word, then its low word. */
  function BE64(n: nat): (b: seq<byte>)
    ensures |b| == 8
  {
    seq(8, i requires 0 <= i < 8 =>
      ByteOf(if i < 4 then n / TWO_32 else n % TWO_32, i % 4))
  }

  function Output(h: Regs): (d: seq<byte>)
    ensures |d| == 20
  {
    BE32s([h.a, h.b, h.c, h.d, h.e])
  }

  /** The digest of m. The length field holds 8 * |m|; the standard is defined for
      messages shorter than 2^64 bits, and a longer one keeps the low 64 bits. */
  function Digest(m: seq<byte>): (d: seq<byte>)
    ensures |d| == 20
  {
    Output(Fold(Compress, INITIAL_HASH, Pad(m, BE64(8 * |m| % TWO_64))))
  }

  // ---- the rounds can be undone ----

  function UnRound(r: Regs, t: nat, w: word): Regs
  {
    var b := Rotl(r.c, 2);
    Regs(r.b, b, r.d, r.e, UnSum(r.a, Rotl(r.b, 5), LogicalFunction(t, b, r.d, r.e), w, K(t)))
  }

  function UnSum(s: word, p: word, f: word, w: word, k: word): word
  {
    s - (p + f + w + k)
  }

  lemma SumInverse(s: word, p: word, f: word, w: word, k: word)
    ensures UnSum(Sum(p, f, s, w, k), p, f, w, k) == s
    ensures Sum(p, f, UnSum(s, p, f, w, k), w, k) == s
  {
    hide Sum, UnSum;
    SumIs(p, f, s, w, k);
    UnSumIs(s, p, f, w, k);
    SumCancels(s, p, f, w, k);
  }

  lemma SumIs(p: word, f: word, e: word, w: word, k: word)
    ensures Sum(p, f, e, w, k) == p + f + e + w + k
  {}

  lemma UnSumIs(s: word, p: word, f: word, w: word, k: word)
    ensures UnSum(s, p, f, w, k) == s - (p + f + w + k)
  {}

  lemma SumCancels(s: word, p: word, f: word, w: word, k: word)
    ensures UnSum(p + f + s + w + k, p, f, w, k) == s
    ensures Sum(p, f, s - (p + f + w + k), w, k) == s
  {}

  function UnRounds(r: Regs, blk: Block, n: nat): Regs
    decreases n
  {
    if n == 0 then r else UnRounds(UnRound(r, n - 1, W(blk, n - 1)), blk, n - 1)
  }

  lemma RoundInverse(r: Regs, t: nat, w: word)
    ensures UnRound(Round(r, t, w), t, w) == r
    ensures Round(UnRound(r, t, w), t, w) == r
  {
    hide Rotl, LogicalFunction, K, Sum, UnSum;
    Rotl30Inverse(r.b);
    Rotl30Inverse(r.c);
    SumInverse(r.e, Rotl(r.a, 5), LogicalFunction(t, r.b, r.c, r.d), w, K(t));
    SumInverse(r.a, Rotl(r.b, 5), LogicalFunction(t, Rotl(r.c, 2), r.d, r.e), w, K(t));
  }

  /** For a fixed block the rounds, before the final addition, are a bijection of the
      registers: UnRounds is a two-sided inverse. */
  lemma {:induction false} RoundsBijective(r: Regs, blk: Block, n: nat)
    ensures UnRounds(Rounds(r, blk, n), blk, n) == r
    ensures Rounds(UnRounds(r, blk, n), blk, n) == r
    decreases n
  {
    hide Round, UnRound;
    if n > 0 {
      var w := W(blk, n - 1);
      RoundInverse(Rounds(r, blk, n - 1), n - 1, w);
      RoundsBijective(r, blk, n - 1);
      RoundsBijective(UnRound(r, n - 1, w), blk, n - 1);
      RoundInverse(r, n - 1, w);
    }
  }
}

/** src/hash/sha1.h: the incremental digest. */
module Sha1 {
  import opened Bytes
  import opened Blocks
  import opened Modular
  import opened Sha1Spec

  /** One pass of the round loop's four-way branch; the code writes Ch and Maj with
      inclusive or. */
  function NextA(i: nat, r: Regs, w: word): word
  {
    if i < 20 then Sum(Rotl(r.a, 5), (r.b & r.c) | (!r.b & r.d), r.e, w, 0x5A827999)
    else if i < 40 then Sum(Rotl(r.a, 5), r.b ^ r.c ^ r.d, r.e, w, 0x6ED9EBA1)
    else if i < 60 then Sum(Rotl(r.a, 5), (r.b & r.c) | (r.b & r.d) | (r.c & r.d), r.e, w, 0x8F1BBCDC)
    else Sum(Rotl(r.a, 5), r.b ^ r.c ^ r.d, r.e, w, 0xCA62C1D6)
  }

  lemma ChAsWritten(t: nat, x: word, y: word, z: word)
    requires t < 20
    ensures LogicalFunction(t, x, y, z) == (x & y) | (!x & z)
  {}

  lemma MajAsWritten(t: nat, x: word, y: word, z: word)
    requires 40 <= t < 60
    ensures LogicalFunction(t, x, y, z) == (x & y) | (x & z) | (y & z)
  {}

  lemma ParityAsWritten(t: nat, x: word, y: word, z: word)
    requires 20 <= t < 40 || 60 <= t
    ensures LogicalFunction(t, x, y, z) == x ^ y ^ z
  {}

  lemma NextAIsRound(i: nat, r: Regs, w: word)
    ensures NextA(i, r, w) == Round(r, i, w).a
  {
    hide *;
    if i < 20 {
      NextACh(i, r, w);
    } else if i < 40 {
      NextAParity(i, r, w);
    } else if i < 60 {
      NextAMaj(i, r, w);
    } else {
      NextALastParity(i, r, w);
    }
  }

  lemma NextACh(i: nat, r: Regs, w: word)
    requires i < 20
    ensures NextA(i, r, w) == Round(r, i, w).a
  {
    hide Rotl, Sum, LogicalFunction;
    ChAsWritten(i, r.b, r.c, r.d);
  }

  lemma NextAMaj(i: nat, r: Regs, w: word)
    requires 40 <= i < 60
    ensures NextA(i, r, w) == Round(r, i, w).a
  {
    hide Rotl, Sum, LogicalFunction;
    MajAsWritten(i, r.b, r.c, r.d);
  }

  lemma NextAParity(i: nat, r: Regs, w: word)
    requires 20 <= i < 40
    ensures NextA(i, r, w) == Round(r, i, w).a
  {
    hide Rotl, Sum, LogicalFunction;
    ParityAsWritten(i, r.b, r.c, r.d);
  }

  lemma NextALastParity(i: nat, r: Regs, w: word)
    requires 60 <= i
    ensures NextA(i, r, w) == Round(r, i, w).a
  {
    hide Rotl, Sum, LogicalFunction;
    ParityAsWritten(i, r.b, r.c, r.d);
  }

  class Context {
    const state: array<word>
    var count0: nat // bits fed, low 32 of 64
    var count1: nat // bits fed, high 32 of 64
    const buffer: array<byte>
    ghost var message: seq<byte> // everything fed so far

    ghost predicate Shape()
    {
      state.Length == 5 && buffer.Length == 64
    }

    ghost function StateRegs(): Regs
      requires Shape()
      reads state
    {
      Regs(state[0], state[1], state[2], state[3], state[4])
    }

    ghost predicate Counts(n: nat)
      reads this`count0, this`count1
    {
      && count0 < TWO_32 && count1 < TWO_32
      && count1 * TWO_32 + count0 == 8 * n % TWO_64
    }

    /** The state is the fold over the whole blocks of m and the buffer starts with the rest. */
    ghost predicate Absorbed(m: seq<byte>)
      requires Shape()
      reads state, buffer
    {
      var whole := |m| - |m| % 64;
      && StateRegs() == Fold(Compress, INITIAL_HASH, m[..whole])
      && buffer[..|m| % 64] == m[whole..]
    }

    ghost predicate Valid()
      reads this, state, buffer
    {
      Shape() && Counts(|message|) && Absorbed(message)
    }

    constructor ()
      ensures Valid() && fresh(state) && fresh(buffer)
      ensures message == []
    {
      state := new word[5];
      buffer := new byte[64];
      count0 := 0;
      count1 := 0;
      message := [];
      new;
      state[0], state[1], state[2], state[3], state[4] :=
        0x67452301, 0xEFCDAB89, 0x98BADCFE, 0x10325476, 0xC3D2E1F0;
    }

    method FeedForward(r: Regs)
      requires Shape()
      modifies state
      ensures StateRegs() == Add(old(StateRegs()), r)
    {
      hide Plus;
      state[0] := Plus(state[0], r.a);
      state[1] := Plus(state[1], r.b);
      state[2] := Plus(state[2], r.c);
      state[3] := Plus(state[3], r.d);
      state[4] := Plus(state[4], r.e);
    }

    method Transform(blk: Block)
      requires Shape()
      modifies state
      ensures StateRegs() == Compress(old(StateRegs()), blk)
    {
      hide Rotl, Sum, LogicalFunction, K, NextA, Add, FromBE32, Expand;
      var w := new word[80];
      for i := 0 to 16
        invariant forall k :: 0 <= k < i ==> w[k] == W(blk, k)
        invariant unchanged(state)
      {
        w[i] := FromBE32(blk[4 * i..4 * i + 4]);
      }
      for i := 16 to 80
        invariant forall k :: 0 <= k < i ==> w[k] == W(blk, k)
        invariant unchanged(state)
      {
        w[i] := Expand(w[i - 3], w[i - 8], w[i - 14], w[i - 16]);
      }
      ghost var h := StateRegs();
      var a, b, c, d, e := state[0], state[1], state[2], state[3], state[4];
      for i := 0 to 80
        invariant Regs(a, b, c, d, e) == Rounds(h, blk, i)
        invariant forall k :: 0 <= k < 80 ==> w[k] == W(blk, k)
        invariant unchanged(state)
      {
        var t := NextA(i, Regs(a, b, c, d, e), w[i]);
        NextAIsRound(i, Regs(a, b, c, d, e), w[i]);
        e, d, c, b, a := d, c, Rotl(b, 30), a, t;
      }
      FeedForward(Regs(a, b, c, d, e));
    }

    /** The two-word counter with its carry test counts 8 bits per byte modulo 2^64. */
    method AddToCount(ghost n: nat, len: nat)
      requires Counts(n)
      modifies this`count0, this`count1
      ensures Counts(n + len)
    {
      CountAdds(n, count0, count1, len);
      var low := 8 * len % TWO_32;
      var d0, d1 := (count0 + low) % TWO_32, count1;
      if d0 < low {
        d1 := (d1 + 1) % TWO_32;
      }
      count0, count1 := d0, (d1 + len / 0x2000_0000 % TWO_32) % TWO_32;
    }

    static lemma CountAdds(n: nat, c0: nat, c1: nat, len: nat)
      requires c0 < TWO_32 && c1 < TWO_32 && c1 * TWO_32 + c0 == 8 * n % TWO_64
      ensures var low := 8 * len % TWO_32;
              var d0 := (c0 + low) % TWO_32;
              var d1 := if d0 < low then (c1 + 1) % TWO_32 else c1;
              (d1 + len / 0x2000_0000 % TWO_32) % TWO_32 * TWO_32 + d0 == 8 * (n + len) % TWO_64
    {
      CountLemma(c0, c1, len);
      AddModuloLong(8 * n, 8 * len);
    }

    lemma Position(n: nat)
      requires Counts(n)
      ensures count0 / 8 % 64 == n % 64
    {
      EighthMod64(n, 8 * n / TWO_64, count1, count0);
    }

    static lemma EighthMod64(n: nat, q: nat, c1: nat, c0: nat)
      requires 8 * n == q * TWO_64 + c1 * TWO_32 + c0
      ensures c0 / 8 % 64 == n % 64
    {
      var k := q * 0x80_0000_0000_0000 + c1 * 0x80_0000;
      var r := n - 64 * k;
      assert c0 == 8 * r;
      Rest64(n, n / 64, n % 64);
      Rest64(r, n / 64 - k, n % 64);
    }

    static lemma CountLemma(c0: nat, c1: nat, len: nat)
      requires c0 < TWO_32 && c1 < TWO_32
      ensures var low := 8 * len % TWO_32;
              var d0 := (c0 + low) % TWO_32;
              var d1 := if d0 < low then (c1 + 1) % TWO_32 else c1;
              (d1 + len / 0x2000_0000 % TWO_32) % TWO_32 * TWO_32 + d0 == (c1 * TWO_32 + c0 + 8 * len) % TWO_64
    {
      var high, low := 8 * len / TWO_32, 8 * len % TWO_32;
      var d0 := (c0 + low) % TWO_32;
      Split32(8 * len);
      EighthOfWord(len);
      CarryTest(c0, low);
      var carry := if d0 < low then 1 else 0;
      AddModulo32(c1 + carry, high);
      Rest32(c1, 0, c1);
      TwoWords(c1 + carry + high, d0);
    }

    static lemma EighthOfWord(len: nat)
      ensures len / 0x2000_0000 == 8 * len / TWO_32
    {
      var q, r := len / 0x2000_0000, len % 0x2000_0000;
      Rest32(8 * len, q, 8 * r);
    }

    /** The sum wrapped around iff it is smaller than what was added. */
    static lemma CarryTest(c: nat, low: nat)
      requires c < TWO_32 && low < TWO_32
      ensures var d := (c + low) % TWO_32; c + low == (if d < low then TWO_32 else 0) + d
    {
      if c + low < TWO_32 {
        Rest32(c + low, 0, c + low);
      } else {
        Rest32(c + low, 1, c + low - TWO_32);
      }
    }

    /** memcpy(&buffer[at], data, |data|) */
    method CopyIn(at: nat, data: seq<byte>)
      requires Shape() && at + |data| <= 64
      modifies buffer
      ensures buffer[..at] == old(buffer[..at])
      ensures buffer[at..at + |data|] == data
    {
      forall k | 0 <= k < |data| {
        buffer[at + k] := data[k];
      }
    }

    /** Fills the buffer from position j and transforms every whole block; returns how
        much of data is used up. */
    method TransformWhole(j: nat, data: seq<byte>) returns (i: nat)
      requires Shape() && j == |message| % 64 && j + |data| > 63
      requires StateRegs() == Fold(Compress, INITIAL_HASH, message[..|message| - j])
      requires buffer[..j] == message[|message| - j..]
      modifies state, buffer
      ensures i <= |data| < i + 64 && (|message| + i) % 64 == 0
      ensures StateRegs() == Fold(Compress, INITIAL_HASH, message + data[..i])
    {
      hide Compress, Fold;
      i := 64 - j;
      CopyIn(j, data[..i]);
      assert buffer[..] == buffer[..j] + buffer[j..j + i];
      assert message + data[..i] == message[..|message| - j] + buffer[..];
      FoldSnoc(Compress, INITIAL_HASH, message[..|message| - j], buffer[..]);
      Transform(buffer[..]);
      i := TransformRest(i, data);
    }

    /** The loop over the blocks that are transformed where they are. */
    method TransformRest(start: nat, data: seq<byte>) returns (i: nat)
      requires Shape() && start <= |data| && (|message| + start) % 64 == 0
      requires StateRegs() == Fold(Compress, INITIAL_HASH, message + data[..start])
      modifies state
      ensures i <= |data| < i + 64 && (|message| + i) % 64 == 0
      ensures StateRegs() == Fold(Compress, INITIAL_HASH, message + data[..i])
    {
      hide Compress, Fold;
      i := start;
      while i + 63 < |data|
        invariant i <= |data| && (|message| + i) % 64 == 0
        invariant StateRegs() == Fold(Compress, INITIAL_HASH, message + data[..i])
      {
        assert message + data[..i + 64] == message + data[..i] + data[i..i + 64];
        FoldSnoc(Compress, INITIAL_HASH, message + data[..i], data[i..i + 64]);
        Transform(data[i..i + 64]);
        i := i + 64;
      }
    }

    /** The last memcpy: the unfinished block goes to the front of the buffer. */
    method CopyTail(ghost m: seq<byte>, ghost kept: nat, j: nat, rest: seq<byte>)
      requires Shape() && kept <= |m| < kept + 64 && kept % 64 == 0
      requires StateRegs() == Fold(Compress, INITIAL_HASH, m[..kept])
      requires j <= 64 && buffer[..j] + rest == m[kept..]
      modifies buffer
      ensures Absorbed(m)
    {
      hide Compress, Fold;
      CopyIn(j, rest);
      assert buffer[..j + |rest|] == buffer[..j] + buffer[j..j + |rest|];
      assert kept == |m| - |m| % 64;
    }

    /** Everything after the counter in sha1_update. */
    method Absorb(j: nat, data: seq<byte>)
      requires Shape() && j == |message| % 64 && Absorbed(message)
      modifies state, buffer
      ensures Absorbed(message + data)
    {
      ghost var m := message + data;
      if j + |data| > 63 {
        hide Compress, Fold;
        var i := TransformWhole(j, data);
        assert m[..|message| + i] == message + data[..i];
        hide *;
        CopyTail(m, |message| + i, 0, data[i..]);
      } else {
        hide Compress, Fold;
        assert m[..|message| - j] == message[..|message| - j];
        CopyTail(m, |message| - j, j, data);
      }
    }

    method Update(data: seq<byte>)
      requires Valid()
      modifies this, state, buffer
      ensures Valid()
      ensures message == old(message) + data
    {
      hide Counts, Absorbed;
      var j := count0 / 8 % 64;
      Position(|message|);
      AddToCount(|message|, |data|);
      Absorb(j, data);
      message := message + data;
    }

    /** finalcount: the two count words, most significant byte first. */
    method FinalCount(ghost n: nat) returns (finalcount: seq<byte>)
      requires Counts(n)
      ensures finalcount == BE64(8 * n % TWO_64)
    {
      hide ByteOf;
      finalcount := [];
      for i := 0 to 8
        invariant finalcount == BE64(8 * n % TWO_64)[..i]
      {
        finalcount := finalcount + [ByteOf(if i >= 4 then count0 else count1, i % 4)];
      }
    }

    /** 0x80 and zero bytes until eight bytes are missing to a whole block; the loop stops
        after the smallest number of zeros. */
    method PadZeros()
      requires Valid()
      modifies this, state, buffer
      ensures Valid()
      ensures message == old(message + [0x80] + Zeros(ZeroBytes(|message|)))
    {
      hide Counts, Absorbed;
      ghost var m := message;
      ZeroBytesSmallest(|m|);
      Update([0x80]);
      ghost var z := 0;
      Position(|message|);
      while count0 / 8 % 64 * 8 != 448
        invariant Valid()
        invariant z <= ZeroBytes(|m|) && message == m + [0x80] + Zeros(z)
        invariant count0 / 8 % 64 == |message| % 64
        decreases ZeroBytes(|m|) - z
      {
        assert !FillsUp(|m|, z);
        Update([0]);
        z := z + 1;
        Position(|message|);
      }
      assert FillsUp(|m|, z);
    }

    method WriteDigest(out: array<byte>)
      requires Shape() && out.Length == 20
      modifies out
      ensures out[..] == Output(StateRegs())
    {
      hide BE32;
      for i := 0 to 20
        invariant forall k :: 0 <= k < i ==> out[k] == BE32(state[k / 4])[k % 4]
      {
        out[i] := BE32(state[i / 4])[i % 4];
      }
      assert out[..] == BE32s(state[..]);
      assert state[..] == [state[0], state[1], state[2], state[3], state[4]];
    }

    lemma WholeBlocks()
      requires Shape() && Absorbed(message) && |message| % 64 == 0
      ensures StateRegs() == Fold(Compress, INITIAL_HASH, message)
    {
      hide Compress, Fold;
      assert message[..|message|] == message;
    }

    method Final(out: array<byte>)
      requires Valid() && out.Length == 20 && out != buffer
      modifies this, state, buffer, out
      ensures out[..] == Digest(old(message))
    {
      hide Counts, Compress, Fold, BE64, Absorbed, Zeros, ZeroBytes, Output, StateRegs;
      ghost var m := message;
      var finalcount := FinalCount(|message|);
      PadZeros();
      Update(finalcount);
      assert message == Pad(m, finalcount);
      WholeBlocks();
      WriteDigest(out);
    }
  }

  /** Init, any number of updates, final: the digest does not depend on the split. */
  method DigestChunks(chunks: seq<seq<byte>>, out: array<byte>)
    requires out.Length == 20
    modifies out
    ensures out[..] == Digest(Concat(chunks))
  {
    hide Digest;
    var ctx := new Context();
    for i := 0 to |chunks|
      invariant ctx.Valid() && fresh(ctx) && fresh(ctx.state) && fresh(ctx.buffer)
      invariant ctx.message == Concat(chunks[..i])
    {
      assert chunks[..i + 1][..i] == chunks[..i];
      ctx.Update(chunks[i]);
    }
    assert chunks[..|chunks|] == chunks;
    ctx.Final(out);
  }
}
