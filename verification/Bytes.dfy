/** Machine words and bytes of the protocol, and their two byte orders. */
module Bytes {
  type byte = bv8
  type word = bv32

  /** A 32-bit word as the four bytes an x86 host sends (least significant first). */
  function LE32(w: word): (b: seq<byte>)
    ensures |b| == 4
  {
    [(w & 0xFF) as byte, ((w >> 8) & 0xFF) as byte, ((w >> 16) & 0xFF) as byte, (w >> 24) as byte]
  }

  function FromLE32(b: seq<byte>): word
    requires |b| == 4
  {
    ((b[3] as word) << 24) | ((b[2] as word) << 16) | ((b[1] as word) << 8) | (b[0] as word)
  }

  /** A 32-bit word, most significant byte first (the order of SHA-1). */
  function BE32(w: word): (b: seq<byte>)
    ensures |b| == 4
  {
    [(w >> 24) as byte, ((w >> 16) & 0xFF) as byte, ((w >> 8) & 0xFF) as byte, (w & 0xFF) as byte]
  }

  function FromBE32(b: seq<byte>): word
    requires |b| == 4
  {
    ((b[0] as word) << 24) | ((b[1] as word) << 16) | ((b[2] as word) << 8) | (b[3] as word)
  }

  /** Words written one after another, low-order byte first. */
  function LE32s(ws: seq<word>): (b: seq<byte>)
    ensures |b| == 4 * |ws|
  {
    seq(4 * |ws|, k requires 0 <= k < 4 * |ws| => LE32(ws[k / 4])[k % 4])
  }

  /** The same, high-order byte first. */
  function BE32s(ws: seq<word>): (b: seq<byte>)
    ensures |b| == 4 * |ws|
  {
    seq(4 * |ws|, k requires 0 <= k < 4 * |ws| => BE32(ws[k / 4])[k % 4])
  }

  lemma LE32RoundTrip(w: word)
    ensures FromLE32(LE32(w)) == w
  {}

  /** Addition modulo 2^32. */
  function Plus(x: word, y: word): word
  {
    x + y
  }

  function Minus(x: word, y: word): word
  {
    x - y
  }

  function Xor(x: word, y: word): word
  {
    x ^ y
  }

  lemma PlusInverse(b: word, v: word)
    ensures Minus(Plus(b, v), b) == v
    ensures Plus(b, Minus(v, b)) == v
  {
    hide Plus, Minus;
    PlusIs(b, v);
    PlusCancels(b, v);
  }

  lemma PlusIs(b: word, v: word)
    ensures Plus(b, v) == b + v
    ensures Minus(v, b) == v - b
  {}

  lemma PlusCancels(b: word, v: word)
    ensures Minus(b + v, b) == v
    ensures Plus(b, v - b) == v
  {}

  lemma PlusEither(x: word, y: word)
    ensures Plus(x, y) == Plus(y, x)
  {}

  lemma XorInverse(x: word, y: word)
    ensures Xor(Xor(x, y), y) == x
  {}

  /** Rotation to the left by n bits, as both digests write it. */
  function Rotl(x: word, n: word): word
    requires n <= 32
  {
    (x << n) | (x >> (32 - n))
  }

  /** Bit i of x is in y n places further up, around the end of the word. */
  predicate BitMoves(x: word, y: word, n: word, i: word)
    requires n < 32 && i < 32
  {
    (y >> ((i + n) & 0x1F)) & 1 == (x >> i) & 1
  }

  lemma RotlBit(x: word, n: word, i: word)
    requires n < 32 && i < 32
    ensures BitMoves(x, Rotl(x, n), n, i)
  {
    hide BitMoves;
    if n < 16 {
      FewPlaces(x, n, i);
    } else {
      ManyPlaces(x, n, i);
    }
  }

  lemma FewPlaces(x: word, n: word, i: word)
    requires n < 16 && i < 32
    ensures BitMoves(x, Rotl(x, n), n, i)
  {
    if n == 0 {} else if n == 1 {} else if n == 2 {} else if n == 3 {}
    else if n == 4 {} else if n == 5 {} else if n == 6 {} else if n == 7 {}
    else if n == 8 {} else if n == 9 {} else if n == 10 {} else if n == 11 {}
    else if n == 12 {} else if n == 13 {} else if n == 14 {} else if n == 15 {}
  }

  lemma ManyPlaces(x: word, n: word, i: word)
    requires 16 <= n < 32 && i < 32
    ensures BitMoves(x, Rotl(x, n), n, i)
  {
    if n == 16 {} else if n == 17 {} else if n == 18 {} else if n == 19 {}
    else if n == 20 {} else if n == 21 {} else if n == 22 {} else if n == 23 {}
    else if n == 24 {} else if n == 25 {} else if n == 26 {} else if n == 27 {}
    else if n == 28 {} else if n == 29 {} else if n == 30 {} else if n == 31 {}
  }

  /** The rotation amounts of MD5. */
  predicate Amount(n: word)
  {
    n == 4 || n == 5 || n == 6 || n == 7 || n == 9 || n == 10 || n == 11 || n == 12 ||
    n == 14 || n == 15 || n == 16 || n == 17 || n == 20 || n == 21 || n == 22 || n == 23
  }

  /** A rotation is undone by the complementary one. */
  lemma RotlInverse(x: word, n: word)
    requires Amount(n)
    ensures Rotl(Rotl(x, n), 32 - n) == x
  {
    if n == 4 {} else if n == 5 {} else if n == 6 {} else if n == 7 {}
    else if n == 9 {} else if n == 10 {} else if n == 11 {} else if n == 12 {}
    else if n == 14 {} else if n == 15 {} else if n == 16 {} else if n == 17 {}
    else if n == 20 {} else if n == 21 {} else if n == 22 {} else if n == 23 {}
  }

  lemma RotlInverseBack(x: word, n: word)
    requires Amount(n)
    ensures Rotl(Rotl(x, 32 - n), n) == x
  {
    if n == 4 {} else if n == 5 {} else if n == 6 {} else if n == 7 {}
    else if n == 9 {} else if n == 10 {} else if n == 11 {} else if n == 12 {}
    else if n == 14 {} else if n == 15 {} else if n == 16 {} else if n == 17 {}
    else if n == 20 {} else if n == 21 {} else if n == 22 {} else if n == 23 {}
  }

  lemma Rotl30Inverse(x: word)
    ensures Rotl(Rotl(x, 30), 2) == x
    ensures Rotl(Rotl(x, 2), 30) == x
  {}
}
