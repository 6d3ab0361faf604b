/** The MD5 message digest in the words of RFC 1321, sections 3.3 to 3.5. */
module Md5Spec {
  import opened Bytes
  import opened Blocks
  import opened Modular

  /** The four registers A, B, C, D. */
  type Regs = r: seq<word> | |r| == 4 witness [0, 0, 0, 0]

  /** Section 3.3. */
  const INITIAL_REGS: Regs := [0x67452301, 0xefcdab89, 0x98badcfe, 0x10325476]

  /** Section 3.4: the constants T[1..64], the rotation amounts, and for each of the 64
      operations [abcd k s i] the input word k it reads. */
  function T(i: nat): word
    requires i < 64
  {
    if i < 16 then T_1[i] else if i < 32 then T_2[i - 16] else if i < 48 then T_3[i - 32] else T_4[i - 48]
  }

  const T_1: seq<word> := [
    0xd76aa478, 0xe8c7b756, 0x242070db, 0xc1bdceee,
    0xf57c0faf, 0x4787c62a, 0xa8304613, 0xfd469501,
    0x698098d8, 0x8b44f7af, 0xffff5bb1, 0x895cd7be,
    0x6b901122, 0xfd987193, 0xa679438e, 0x49b40821]

  const T_2: seq<word> := [
    0xf61e2562, 0xc040b340, 0x265e5a51, 0xe9b6c7aa,
    0xd62f105d, 0x02441453, 0xd8a1e681, 0xe7d3fbc8,
    0x21e1cde6, 0xc33707d6, 0xf4d50d87, 0x455a14ed,
    0xa9e3e905, 0xfcefa3f8, 0x676f02d9, 0x8d2a4c8a]

  const T_3: seq<word> := [
    0xfffa3942, 0x8771f681, 0x6d9d6122, 0xfde5380c,
    0xa4beea44, 0x4bdecfa9, 0xf6bb4b60, 0xbebfbc70,
    0x289b7ec6, 0xeaa127fa, 0xd4ef3085, 0x04881d05,
    0xd9d4d039, 0xe6db99e5, 0x1fa27cf8, 0xc4ac5665]

  const T_4: seq<word> := [
    0xf4292244, 0x432aff97, 0xab9423a7, 0xfc93a039,
    0x655b59c3, 0x8f0ccc92, 0xffeff47d, 0x85845dd1,
    0x6fa87e4f, 0xfe2ce6e0, 0xa3014314, 0x4e0811a1,
    0xf7537e82, 0xbd3af235, 0x2ad7d2bb, 0xeb86d391]

  function ShiftAmount(i: nat): (s: word)
    requires i < 64
    ensures s <= 32 && Amount(s)
  {
    if i < 16 then [7, 12, 17, 22][i % 4]
    else if i < 32 then [5, 9, 14, 20][i % 4]
    else if i < 48 then [4, 11, 16, 23][i % 4]
    else [6, 10, 15, 21][i % 4]
  }

  function InputIndex(i: nat): (k: nat)
    requires i < 64
    ensures k < 16
  {
    if i < 16 then i
    else if i < 32 then [1, 6, 11, 0, 5, 10, 15, 4, 9, 14, 3, 8, 13, 2, 7, 12][i - 16]
    else if i < 48 then [5, 8, 11, 14, 1, 4, 7, 10, 13, 0, 3, 6, 9, 12, 15, 2][i - 32]
    else [0, 7, 14, 5, 12, 3, 10, 1, 8, 15, 6, 13, 4, 11, 2, 9][i - 48]
  }

  /** F, G, H and I. */
  function Auxiliary(round: nat, x: word, y: word, z: word): word
  {
    if round == 0 then (x & y) | (!x & z)
    else if round == 1 then (x & z) | (y & !z)
    else if round == 2 then x ^ y ^ z
    else y ^ (x | !z)
  }

  function Sum(a: word, e: word, k: word, x: word): word
  {
    a + e + k + x
  }

  /** b + ((a + F(b,c,d) + X[k] + T(i)) <<< s) */
  function NewWord(i: nat, a: word, b: word, c: word, d: word, x: word): word
    requires i < 64
  {
    Plus(b, Rotl(Sum(a, Auxiliary(i / 16, b, c, d), T(i), x), ShiftAmount(i)))
  }

  /** The operations go through [ABCD], [DABC], [CDAB], [BCDA]: the i-th one (counting
      from 0) overwrites this register. */
  function Target(i: nat): (t: nat)
    ensures t < 4
  {
    (64 - i % 4) % 4
  }

  /** One operation [abcd k s i], in place. */
  function Operation(r: Regs, i: nat, x: seq<word>): Regs
    requires i < 64 && |x| == 16
  {
    var t := Target(i);
    r[t := NewWord(i, r[t], r[(t + 1) % 4], r[(t + 2) % 4], r[(t + 3) % 4], x[InputIndex(i)])]
  }

  function Operations(r: Regs, x: seq<word>, n: nat): Regs
    requires n <= 64 && |x| == 16
  {
    if n == 0 then r else Operation(Operations(r, x, n - 1), n - 1, x)
  }

  function Add(h: Regs, r: Regs): Regs
  {
    [Plus(h[0], r[0]), Plus(h[1], r[1]), Plus(h[2], r[2]), Plus(h[3], r[3])]
  }

  /** A block as sixteen words, low-order byte first (section 2). */
  function Words(blk: Block): (x: seq<word>)
    ensures |x| == 16
  {
    seq(16, j requires 0 <= j < 16 => FromLE32(blk[4 * j..4 * j + 4]))
  }

  function Compress(h: Regs, blk: Block): Regs
  {
    Add(h, Operations(h, Words(blk), 64))
  }

  /** Section 3.2: the low-order 64 bits of the length, low-order word first. */
  function LE64(n: nat): (b: seq<byte>)
    ensures |b| == 8
  {
    LE32(LowWord(n)) + LE32(LowWord(n / TWO_32))
  }

  /** A number cut to 32 bits. */
  function LowWord(n: nat): word
  {
    (n % TWO_32) as word
  }

  /** Section 3.5. */
  function Output(r: Regs): (d: seq<byte>)
    ensures |d| == 16
  {
    LE32s(r)
  }

  function Digest(m: seq<byte>): (d: seq<byte>)
    ensures |d| == 16
  {
    Output(Fold(Compress, INITIAL_REGS, Pad(m, LE64(8 * |m|))))
  }

  // ---- the operations can be undone ----

  function UnSum(s: word, e: word, k: word, x: word): word
  {
    s - (e + k + x)
  }

  function OldWord(i: nat, v: word, b: word, c: word, d: word, x: word): word
    requires i < 64
  {
    UnSum(Rotl(Minus(v, b), 32 - ShiftAmount(i)), Auxiliary(i / 16, b, c, d), T(i), x)
  }

  function UnOperation(r: Regs, i: nat, x: seq<word>): Regs
    requires i < 64 && |x| == 16
  {
    var t := Target(i);
    r[t := OldWord(i, r[t], r[(t + 1) % 4], r[(t + 2) % 4], r[(t + 3) % 4], x[InputIndex(i)])]
  }

  function UnOperations(r: Regs, x: seq<word>, n: nat): Regs
    requires n <= 64 && |x| == 16
    decreases n
  {
    if n == 0 then r else UnOperations(UnOperation(r, n - 1, x), x, n - 1)
  }

  lemma SumInverse(s: word, e: word, k: word, x: word)
    ensures UnSum(Sum(s, e, k, x), e, k, x) == s
    ensures Sum(UnSum(s, e, k, x), e, k, x) == s
  {
    hide Sum, UnSum;
    SumIs(s, e, k, x);
    UnSumIs(s, e, k, x);
    SumCancels(s, e, k, x);
  }

  lemma SumIs(a: word, e: word, k: word, x: word)
    ensures Sum(a, e, k, x) == a + e + k + x
  {}

  lemma UnSumIs(s: word, e: word, k: word, x: word)
    ensures UnSum(s, e, k, x) == s - (e + k + x)
  {}

  lemma SumCancels(s: word, e: word, k: word, x: word)
    ensures UnSum(s + e + k + x, e, k, x) == s
    ensures Sum(s - (e + k + x), e, k, x) == s
  {}

  lemma RotlBack(x: word, i: nat)
    requires i < 64
    ensures Rotl(Rotl(x, ShiftAmount(i)), 32 - ShiftAmount(i)) == x
    ensures Rotl(Rotl(x, 32 - ShiftAmount(i)), ShiftAmount(i)) == x
  {
    hide Rotl, ShiftAmount, Amount;
    RotlInverse(x, ShiftAmount(i));
    RotlInverseBack(x, ShiftAmount(i));
  }

  lemma OldOfNew(i: nat, a: word, b: word, c: word, d: word, x: word)
    requires i < 64
    ensures OldWord(i, NewWord(i, a, b, c, d, x), b, c, d, x) == a
  {
    hide Rotl, Plus, Minus, Sum, UnSum, Auxiliary, T, ShiftAmount, Amount;
    var e := Auxiliary(i / 16, b, c, d);
    var s := Sum(a, e, T(i), x);
    SumInverse(a, e, T(i), x);
    RotlBack(s, i);
    PlusInverse(b, Rotl(s, ShiftAmount(i)));
  }

  lemma NewOfOld(i: nat, v: word, b: word, c: word, d: word, x: word)
    requires i < 64
    ensures NewWord(i, OldWord(i, v, b, c, d, x), b, c, d, x) == v
  {
    hide Rotl, Plus, Minus, Sum, UnSum, Auxiliary, T, ShiftAmount, Amount;
    PlusInverse(b, v);
    RotlBack(Minus(v, b), i);
    SumInverse(Rotl(Minus(v, b), 32 - ShiftAmount(i)), Auxiliary(i / 16, b, c, d), T(i), x);
  }

  lemma OperationInverse(r: Regs, i: nat, x: seq<word>)
    requires i < 64 && |x| == 16
    ensures UnOperation(Operation(r, i, x), i, x) == r
    ensures Operation(UnOperation(r, i, x), i, x) == r
  {
    hide NewWord, OldWord;
    var t := Target(i);
    OldOfNew(i, r[t], r[(t + 1) % 4], r[(t + 2) % 4], r[(t + 3) % 4], x[InputIndex(i)]);
    NewOfOld(i, r[t], r[(t + 1) % 4], r[(t + 2) % 4], r[(t + 3) % 4], x[InputIndex(i)]);
  }

  /** For a fixed block the 64 operations, before the final addition, are a bijection of
      the registers: UnOperations is a two-sided inverse. */
  lemma {:induction false} OperationsBijective(r: Regs, x: seq<word>, n: nat)
    requires n <= 64 && |x| == 16
    ensures UnOperations(Operations(r, x, n), x, n) == r
    ensures Operations(UnOperations(r, x, n), x, n) == r
    decreases n
  {
    hide Operation, UnOperation;
    if n > 0 {
      OperationInverse(Operations(r, x, n - 1), n - 1, x);
      OperationsBijective(r, x, n - 1);
      OperationsBijective(UnOperation(r, n - 1, x), x, n - 1);
      OperationInverse(r, n - 1, x);
    }
  }
}

/** src/hash/md5.c: the incremental digest. */
module Md5 {
  import opened Bytes
  import opened Blocks
  import opened Modular
  import opened Md5Spec

  /** The tables and the four functions as md5.c has them. */
  const S: seq<word> :=
    [7, 12, 17, 22, 7, 12, 17, 22, 7, 12, 17, 22, 7, 12, 17, 22] +
    [5, 9, 14, 20, 5, 9, 14, 20, 5, 9, 14, 20, 5, 9, 14, 20] +
    [4, 11, 16, 23, 4, 11, 16, 23, 4, 11, 16, 23, 4, 11, 16, 23] +
    [6, 10, 15, 21, 6, 10, 15, 21, 6, 10, 15, 21, 6, 10, 15, 21]

  const K: seq<word> :=
    [0xd76aa478, 0xe8c7b756, 0x242070db, 0xc1bdceee,
     0xf57c0faf, 0x4787c62a, 0xa8304613, 0xfd469501,
     0x698098d8, 0x8b44f7af, 0xffff5bb1, 0x895cd7be,
     0x6b901122, 0xfd987193, 0xa679438e, 0x49b40821] +
    [0xf61e2562, 0xc040b340, 0x265e5a51, 0xe9b6c7aa,
     0xd62f105d, 0x02441453, 0xd8a1e681, 0xe7d3fbc8,
     0x21e1cde6, 0xc33707d6, 0xf4d50d87, 0x455a14ed,
     0xa9e3e905, 0xfcefa3f8, 0x676f02d9, 0x8d2a4c8a] +
    [0xfffa3942, 0x8771f681, 0x6d9d6122, 0xfde5380c,
     0xa4beea44, 0x4bdecfa9, 0xf6bb4b60, 0xbebfbc70,
     0x289b7ec6, 0xeaa127fa, 0xd4ef3085, 0x04881d05,
     0xd9d4d039, 0xe6db99e5, 0x1fa27cf8, 0xc4ac5665] +
    [0xf4292244, 0x432aff97, 0xab9423a7, 0xfc93a039,
     0x655b59c3, 0x8f0ccc92, 0xffeff47d, 0x85845dd1,
     0x6fa87e4f, 0xfe2ce6e0, 0xa3014314, 0x4e0811a1,
     0xf7537e82, 0xbd3af235, 0x2ad7d2bb, 0xeb86d391]

  function F(x: word, y: word, z: word): word { (x & y) | (!x & z) }

  function G(x: word, y: word, z: word): word { (x & z) | (y & !z) }

  function H(x: word, y: word, z: word): word { x ^ y ^ z }

  function I(x: word, y: word, z: word): word { y ^ (x | !z) }

  /** The switch of md5Step picks the function of the round. */
  function E(i: nat, x: word, y: word, z: word): word
  {
    if i / 16 == 0 then F(x, y, z)
    else if i / 16 == 1 then G(x, y, z)
    else if i / 16 == 2 then H(x, y, z)
    else I(x, y, z)
  }

  lemma FIsRfc(x: word, y: word, z: word)
    ensures F(x, y, z) == Auxiliary(0, x, y, z)
  {}

  lemma GIsRfc(x: word, y: word, z: word)
    ensures G(x, y, z) == Auxiliary(1, x, y, z)
  {}

  lemma HIsRfc(x: word, y: word, z: word)
    ensures H(x, y, z) == Auxiliary(2, x, y, z)
  {}

  lemma IIsRfc(x: word, y: word, z: word)
    ensures I(x, y, z) == Auxiliary(3, x, y, z)
  {}

  lemma EIsRfc(i: nat, x: word, y: word, z: word)
    requires i < 64
    ensures E(i, x, y, z) == Auxiliary(i / 16, x, y, z)
  {
    hide F, G, H, I, Auxiliary;
    FIsRfc(x, y, z);
    GIsRfc(x, y, z);
    HIsRfc(x, y, z);
    IIsRfc(x, y, z);
  }

  lemma KIsRfc(i: nat)
    requires i < 64
    ensures |K| == 64 && K[i] == T(i)
  {
    assert K == T_1 + T_2 + T_3 + T_4;
  }

  lemma SIsRfc1(i: nat)
    requires 0 <= i < 16
    ensures S[i] == ShiftAmount(i)
  {
    assert i == 0 || i == 1 || i == 2 || i == 3 || i == 4 || i == 5 || i == 6 || i == 7 ||
           i == 8 || i == 9 || i == 10 || i == 11 || i == 12 || i == 13 || i == 14 || i == 15;
  }

  lemma SIsRfc2(i: nat)
    requires 16 <= i < 32
    ensures S[i] == ShiftAmount(i)
  {
    assert i == 16 || i == 17 || i == 18 || i == 19 || i == 20 || i == 21 || i == 22 || i == 23 ||
           i == 24 || i == 25 || i == 26 || i == 27 || i == 28 || i == 29 || i == 30 || i == 31;
  }

  lemma SIsRfc3(i: nat)
    requires 32 <= i < 48
    ensures S[i] == ShiftAmount(i)
  {
    assert i == 32 || i == 33 || i == 34 || i == 35 || i == 36 || i == 37 || i == 38 || i == 39 ||
           i == 40 || i == 41 || i == 42 || i == 43 || i == 44 || i == 45 || i == 46 || i == 47;
  }

  lemma SIsRfc4(i: nat)
    requires 48 <= i < 64
    ensures S[i] == ShiftAmount(i)
  {
    assert i == 48 || i == 49 || i == 50 || i == 51 || i == 52 || i == 53 || i == 54 || i == 55 ||
           i == 56 || i == 57 || i == 58 || i == 59 || i == 60 || i == 61 || i == 62 || i == 63;
  }

  lemma SIsRfc(i: nat)
    requires i < 64
    ensures |S| == 64 && S[i] == ShiftAmount(i)
  {
    hide ShiftAmount;
    if i < 16 {
      SIsRfc1(i);
    } else if i < 32 {
      SIsRfc2(i);
    } else if i < 48 {
      SIsRfc3(i);
    } else {
      SIsRfc4(i);
    }
  }

  /** The switch of md5Step computes the index of the input word. */
  function IndexAsWritten(i: nat): nat
  {
    if i / 16 == 0 then i
    else if i / 16 == 1 then (i * 5 + 1) % 16
    else if i / 16 == 2 then (i * 3 + 5) % 16
    else i * 7 % 16
  }

  lemma IndexIsRfc2(i: nat)
    requires 16 <= i < 32
    ensures IndexAsWritten(i) == InputIndex(i)
  {
    assert i == 16 || i == 17 || i == 18 || i == 19 || i == 20 || i == 21 || i == 22 || i == 23 ||
           i == 24 || i == 25 || i == 26 || i == 27 || i == 28 || i == 29 || i == 30 || i == 31;
  }

  lemma IndexIsRfc3(i: nat)
    requires 32 <= i < 48
    ensures IndexAsWritten(i) == InputIndex(i)
  {
    assert i == 32 || i == 33 || i == 34 || i == 35 || i == 36 || i == 37 || i == 38 || i == 39 ||
           i == 40 || i == 41 || i == 42 || i == 43 || i == 44 || i == 45 || i == 46 || i == 47;
  }

  lemma IndexIsRfc4(i: nat)
    requires 48 <= i < 64
    ensures IndexAsWritten(i) == InputIndex(i)
  {
    assert i == 48 || i == 49 || i == 50 || i == 51 || i == 52 || i == 53 || i == 54 || i == 55 ||
           i == 56 || i == 57 || i == 58 || i == 59 || i == 60 || i == 61 || i == 62 || i == 63;
  }

  lemma IndexIsRfc(i: nat)
    requires i < 64
    ensures IndexAsWritten(i) == InputIndex(i)
  {
    if i < 16 {
    } else if i < 32 {
      IndexIsRfc2(i);
    } else if i < 48 {
      IndexIsRfc3(i);
    } else {
      IndexIsRfc4(i);
    }
  }

  /** The new value of BB is the new word of the standard. */
  lemma NewWordAsWritten(i: nat, aa: word, bb: word, cc: word, dd: word, x: word)
    requires i < 64
    ensures |K| == 64 && |S| == 64 && S[i] <= 32
    ensures Plus(bb, Rotl(Sum(aa, E(i, bb, cc, dd), K[i], x), S[i])) == NewWord(i, aa, bb, cc, dd, x)
  {
    EIsRfc(i, bb, cc, dd);
    KIsRfc(i);
    SIsRfc(i);
    hide E, Auxiliary, K, T, S, ShiftAmount, Plus, Rotl, Sum;
  }

  /** What the four locals AA, BB, CC, DD hold after i operations on r. */
  function Seen(r: Regs, i: nat): Regs
  {
    var t := Target(i);
    [r[t], r[(t + 1) % 4], r[(t + 2) % 4], r[(t + 3) % 4]]
  }

  lemma SeenAtStart(r: Regs)
    ensures Seen(r, 0) == r && Seen(r, 64) == r
  {}

  lemma SeenOfUpdate(r: Regs, t: nat, v: word)
    requires t < 4
    ensures var s, u := r[t := v], (t + 3) % 4;
            [s[u], s[(u + 1) % 4], s[(u + 2) % 4], s[(u + 3) % 4]] == [r[u], v, r[(t + 1) % 4], r[(t + 2) % 4]]
  {
    assert t == 0 || t == 1 || t == 2 || t == 3;
  }

  lemma NextTarget(i: nat)
    ensures Target(i + 1) == (Target(i) + 3) % 4
  {
    var r := i % 4;
    assert (i + 1) % 4 == if r == 3 then 0 else r + 1;
    assert r == 0 || r == 1 || r == 2 || r == 3;
  }

  lemma SeenNext(r: Regs, i: nat, x: seq<word>)
    requires i < 64 && |x| == 16
    ensures var s := Seen(r, i);
            Seen(Operation(r, i, x), i + 1)
            == [s[3], NewWord(i, s[0], s[1], s[2], s[3], x[InputIndex(i)]), s[1], s[2]]
  {
    NextTarget(i);
    hide NewWord, InputIndex, Target;
    var t := Target(i);
    SeenOfUpdate(r, t, NewWord(i, r[t], r[(t + 1) % 4], r[(t + 2) % 4], r[(t + 3) % 4], x[InputIndex(i)]));
  }

  class Context {
    var size: nat // bytes fed, modulo 2^64
    const buffer: array<word>
    const input: array<byte>
    const digest: array<byte>
    ghost var message: seq<byte> // everything fed so far

    ghost predicate Shape()
    {
      && buffer.Length == 4 && input.Length == 64 && digest.Length == 16
      && input != digest
    }

    ghost function Accumulated(): Regs
      requires Shape()
      reads buffer
    {
      buffer[..]
    }

    /** The accumulation is the fold over the whole blocks of m, input starts with the rest. */
    ghost predicate Absorbed(m: seq<byte>)
      requires Shape()
      reads buffer, input
    {
      var whole := |m| - |m| % 64;
      && Accumulated() == Fold(Compress, INITIAL_REGS, m[..whole])
      && input[..|m| % 64] == m[whole..]
    }

    ghost predicate Valid()
      reads this, buffer, input
    {
      Shape() && size == |message| % TWO_64 && Absorbed(message)
    }

    constructor ()
      ensures Valid() && fresh(buffer) && fresh(input) && fresh(digest)
      ensures message == []
    {
      size := 0;
      buffer := new word[4];
      input := new byte[64];
      digest := new byte[16];
      message := [];
      new;
      buffer[0], buffer[1], buffer[2], buffer[3] := 0x67452301, 0xefcdab89, 0x98badcfe, 0x10325476;
      assert buffer[..] == INITIAL_REGS;
    }

    /** The final addition of md5Step. */
    method FeedForward(r: Regs)
      requires Shape()
      modifies buffer
      ensures Accumulated() == Add(old(Accumulated()), r)
    {
      hide Plus;
      buffer[0] := Plus(buffer[0], r[0]);
      buffer[1] := Plus(buffer[1], r[1]);
      buffer[2] := Plus(buffer[2], r[2]);
      buffer[3] := Plus(buffer[3], r[3]);
    }

    /** md5Step: four local registers rotate once per operation. */
    method Step(x: seq<word>)
      requires Shape() && |x| == 16
      modifies buffer
      ensures Accumulated() == Add(old(Accumulated()), Operations(old(Accumulated()), x, 64))
    {
      hide NewWord, InputIndex, IndexAsWritten, Operation, Add, Seen, E, K, S, Plus, Rotl, Sum;
      ghost var r0 := Accumulated();
      var aa, bb, cc, dd := buffer[0], buffer[1], buffer[2], buffer[3];
      SeenAtStart(r0);
      for i := 0 to 64
        invariant [aa, bb, cc, dd] == Seen(Operations(r0, x, i), i)
        invariant unchanged(buffer)
      {
        SeenNext(Operations(r0, x, i), i, x);
        IndexIsRfc(i);
        var e, j := E(i, bb, cc, dd), IndexAsWritten(i);
        NewWordAsWritten(i, aa, bb, cc, dd, x[j]);
        var temp := dd;
        dd := cc;
        cc := bb;
        bb := Plus(bb, Rotl(Sum(aa, e, K[i], x[j]), S[i]));
        aa := temp;
      }
      SeenAtStart(Operations(r0, x, 64));
      FeedForward([aa, bb, cc, dd]);
    }

    /** The first n words of the input buffer, little-endian. */
    method ReadWords(n: nat) returns (x: seq<word>)
      requires Shape() && n <= 16
      ensures x == Words(input[..])[..n]
    {
      hide FromLE32;
      x := [];
      for j := 0 to n
        invariant x == Words(input[..])[..j]
      {
        assert input[..][4 * j..4 * j + 4] == input[4 * j..4 * j + 4];
        x := x + [FromLE32(input[4 * j..4 * j + 4])];
      }
    }

    /** One pass of md5Update's loop. */
    method PutByte(ghost m: seq<byte>, offset: nat, b: byte) returns (next: nat)
      requires Shape() && Absorbed(m) && offset == |m| % 64
      modifies buffer, input
      ensures Absorbed(m + [b]) && next == (|m| + 1) % 64
    {
      hide Compress, Fold, Accumulated;
      ghost var whole := |m| - offset;
      NextMod64(|m|);
      assert (m + [b])[..whole] == m[..whole];
      input[offset] := b;
      next := offset + 1;
      assert input[..next] == (m + [b])[whole..];
      if next % 64 == 0 {
        assert m[..whole] + input[..] == m + [b] == (m + [b])[..|m| + 1];
        StepOnInput(m[..whole]);
        next := 0;
      }
    }

    method StepOnInput(ghost s: seq<byte>)
      requires Shape() && |s| % 64 == 0 && Accumulated() == Fold(Compress, INITIAL_REGS, s)
      modifies buffer
      ensures Accumulated() == Fold(Compress, INITIAL_REGS, s + input[..])
    {
      hide Fold, Add, Operations, Words;
      var x := ReadWords(16);
      assert x == Words(input[..]);
      FoldSnoc(Compress, INITIAL_REGS, s, input[..]);
      Step(x);
    }

    /** The loop counter of md5Update has 32 bits, so a chunk must be shorter than 2^32. */
    method Update(data: seq<byte>)
      requires Valid() && |data| < TWO_32
      modifies this, buffer, input
      ensures Valid()
      ensures message == old(message) + data
    {
      hide Absorbed;
      LongMod64(|message|);
      AddModuloLong(|message|, |data|);
      var offset := size % 64;
      size := (size + |data|) % TWO_64;
      assert message + data[..0] == message;
      label L:
      var i := 0;
      while i < |data|
        invariant i <= |data| && offset == (|message| + i) % 64
        invariant Absorbed(message + data[..i])
        invariant unchanged@L(this)
      {
        assert message + data[..i + 1] == message + data[..i] + [data[i]];
        offset := PutByte(message + data[..i], offset, data[i]);
        i := Increment(i);
      }
      assert data[..|data|] == data;
      message := message + data;
    }

    /** The closed form of the padding length is one byte 0x80 and the smallest number of
        zero bytes, which is what the SHA-1 code finds with a loop. */
    static lemma PaddingLength(n: nat)
      ensures PaddingFor(n) == 1 + ZeroBytes(n)
      ensures (n + 1 + ZeroBytes(n)) % 64 == 56 && ZeroBytes(n) < 64
    {
      ZeroBytesSmallest(n);
    }

    static function Padding(): (p: seq<byte>)
      ensures |p| == 64
    {
      [0x80] + Zeros(63)
    }

    static lemma PaddingPrefix(n: nat)
      requires n < 64
      ensures Padding()[..1 + n] == [0x80] + Zeros(n)
    {}

    /** The fourteen words of the buffer and the length in bits, as two words. */
    method LastWords(ghost n: nat) returns (x: seq<word>)
      requires Shape() && size == n % TWO_64
      ensures x == Words(input[..56] + LE64(8 * n))
    {
      hide FromLE32, LE32, LowWord;
      x := ReadWords(14);
      var bits := size * 8 % TWO_64;
      x := x + [LowWord(bits), LowWord(bits / TWO_32)];
      SizeWordsAre(n);
      WordsOfLast(input[..], LowWord(8 * n), LowWord(8 * n / TWO_32));
    }

    /** Both halves of the wrapped size in bits are those of the true length. */
    static lemma SizeWordsAre(n: nat)
      ensures var bits := n % TWO_64 * 8 % TWO_64;
              LowWord(bits) == LowWord(8 * n) && LowWord(bits / TWO_32) == LowWord(8 * n / TWO_32)
    {
      EightTimes(n);
      WordsOf(8 * n);
      var high := 8 * n / TWO_32 % TWO_32;
      Rest32(high, 0, high);
    }

    static lemma EightTimes(n: nat)
      ensures n % TWO_64 * 8 % TWO_64 == 8 * n % TWO_64
    {
      var q, s := n / TWO_64, n % TWO_64 * 8;
      SplitLong(n);
      SplitLong(s);
      RestLong(8 * n, 8 * q + s / TWO_64, s % TWO_64);
    }

    static lemma WordsOfLast(s: seq<byte>, low: word, high: word)
      requires |s| == 64
      ensures Words(s)[..14] + [low, high] == Words(s[..56] + (LE32(low) + LE32(high)))
    {
      hide FromLE32, LE32;
      LE32RoundTrip(low);
      LE32RoundTrip(high);
      var blk := s[..56] + (LE32(low) + LE32(high));
      forall j | 0 <= j < 14 ensures Words(s)[j] == Words(blk)[j] {
        assert s[4 * j..4 * j + 4] == blk[4 * j..4 * j + 4];
      }
      assert blk[56..60] == LE32(low) && blk[60..64] == LE32(high);
    }

    /** Steps on the last block: the unfinished block and the length. */
    method LastBlock(ghost n: nat)
      requires Shape() && size == n % TWO_64
      requires |message| % 64 == 56 && Absorbed(message)
      modifies buffer
      ensures Accumulated() == Fold(Compress, INITIAL_REGS, message + LE64(8 * n))
    {
      hide Fold, Add, Operations, LE64, Words;
      ghost var whole := |message| - 56;
      ghost var blk: Block := input[..56] + LE64(8 * n);
      var x := LastWords(n);
      FoldSnoc(Compress, INITIAL_REGS, message[..whole], blk);
      assert message[..whole] + blk == message + LE64(8 * n);
      Step(x);
    }

    /** Byte j of a word, masked and shifted. */
    static function DigestByte(w: word, j: nat): byte
    {
      if j == 0 then (w & 0x000000FF) as byte
      else if j == 1 then ((w & 0x0000FF00) >> 8) as byte
      else if j == 2 then ((w & 0x00FF0000) >> 16) as byte
      else ((w & 0xFF000000) >> 24) as byte
    }

    static lemma DigestBytes(w: word)
      ensures LE32(w) == [DigestByte(w, 0), DigestByte(w, 1), DigestByte(w, 2), DigestByte(w, 3)]
    {}

    method PutWord(i: nat, w: word)
      requires Shape() && i < 4
      modifies digest
      ensures digest[..4 * i] == old(digest[..4 * i])
      ensures digest[4 * i..4 * i + 4] == LE32(w)
    {
      DigestBytes(w);
      hide LE32, DigestByte;
      digest[i * 4] := DigestByte(w, 0);
      digest[i * 4 + 1] := DigestByte(w, 1);
      digest[i * 4 + 2] := DigestByte(w, 2);
      digest[i * 4 + 3] := DigestByte(w, 3);
    }

    static lemma LE32sSnoc(ws: seq<word>, i: nat)
      requires i < |ws|
      ensures LE32s(ws[..i + 1]) == LE32s(ws[..i]) + LE32(ws[i])
    {
      hide LE32;
    }

    method WriteDigest()
      requires Shape()
      modifies digest
      ensures digest[..] == Output(Accumulated())
    {
      hide LE32, LE32s;
      for i := 0 to 4
        invariant digest[..4 * i] == LE32s(buffer[..][..i])
      {
        PutWord(i, buffer[i]);
        LE32sSnoc(buffer[..], i);
        assert digest[..4 * (i + 1)] == digest[..4 * i] + digest[4 * i..4 * i + 4];
      }
      assert buffer[..][..4] == buffer[..];
    }

    static function PaddingFor(size: nat): (p: nat)
    {
      var offset := size % 64;
      if offset < 56 then 56 - offset else 56 + 64 - offset
    }

    lemma PaddingIsSmallest()
      requires Valid()
      ensures PaddingFor(size) == 1 + ZeroBytes(|message|) <= 64
      ensures (|message| + PaddingFor(size)) % 64 == 56
    {
      hide Absorbed, ZeroBytes;
      LongMod64(|message|);
      PaddingLength(|message|);
    }

    /** Fills in the padding and undoes the change to size. */
    method PadTo56()
      requires Valid()
      modifies this, buffer, input
      ensures Absorbed(message) && |message| % 64 == 56
      ensures message == old(message + [0x80] + Zeros(ZeroBytes(|message|)))
      ensures size == old(size)
    {
      hide Absorbed, ZeroBytes, Padding, PaddingFor;
      ghost var n, was := |message|, size;
      PaddingIsSmallest();
      var p := PaddingFor(size);
      PaddingPrefix(ZeroBytes(n));
      Update(Padding()[..p]);
      AddModuloLong(n, p);
      TakeBack(p, was);
    }

    method TakeBack(p: nat, ghost was: nat)
      requires was < TWO_64 && p <= 64 && size == (was + p) % TWO_64
      modifies this`size
      ensures size == was
    {
      Undo(was, p);
      size := if size >= p then size - p else size - p + TWO_64;
    }

    static lemma Undo(s: nat, p: nat)
      requires s < TWO_64 && p <= 64
      ensures (if (s + p) % TWO_64 >= p then (s + p) % TWO_64 - p else (s + p) % TWO_64 - p + TWO_64) == s
    {
      if s + p < TWO_64 {
        RestLong(s + p, 0, s + p);
      } else {
        RestLong(s + p, 1, s + p - TWO_64);
      }
    }

    method Finalize()
      requires Valid()
      modifies this, buffer, input, digest
      ensures digest[..] == Digest(old(message))
    {
      hide Fold, Compress, Absorbed, LE64;
      ghost var n := |message|;
      PadTo56();
      LastBlock(n);
      WriteDigest();
    }
  }

  /** md5File: the digest of a file read in chunks does not depend on the split. */
  method File(chunks: seq<seq<byte>>) returns (result: seq<byte>)
    requires forall i :: 0 <= i < |chunks| ==> |chunks[i]| < TWO_32
    ensures result == Digest(Concat(chunks))
  {
    hide Digest;
    var ctx := new Context();
    for i := 0 to |chunks|
      invariant ctx.Valid() && fresh(ctx) && fresh(ctx.buffer) && fresh(ctx.input) && fresh(ctx.digest)
      invariant ctx.message == Concat(chunks[..i])
    {
      assert chunks[..i + 1][..i] == chunks[..i];
      ctx.Update(chunks[i]);
    }
    assert chunks[..|chunks|] == chunks;
    ctx.Finalize();
    result := ctx.digest[..];
  }

  /** ++i on the unsigned int that counts the bytes of a chunk. */
  function Increment(i: nat): (r: nat)
    ensures i + 1 < TWO_32 ==> r == i + 1
  {
    (i + 1) % TWO_32
  }

  /** That counter after so many turns of the loop. */
  function Counter(turns: nat): nat
  {
    if turns == 0 then 0 else Increment(Counter(turns - 1))
  }

  lemma {:induction false} CounterWraps(turns: nat)
    ensures Counter(turns) == turns % TWO_32
  {
    if turns > 0 {
      CounterWraps(turns - 1);
      AddModulo32(turns - 1, 1);
      Rest32(1, 0, 1);
    }
  }

  /** Why the bound: the loop's end is reached after some turns iff the length fits. */
  lemma CounterReaches(length: nat)
    ensures (exists turns: nat :: !(Counter(turns) < length)) <==> length < TWO_32
  {
    if length < TWO_32 {
      CounterWraps(length);
      Rest32(length, 0, length);
      assert !(Counter(length) < length);
    }
    forall turns: nat ensures Counter(turns) < TWO_32 {
      CounterWraps(turns);
      Split32(turns);
    }
  }
}
