/** Remainders modulo 64, 2^32 and 2^64, by explicit quotients. */
module Modular {
  const TWO_32: nat := 0x1_0000_0000
  const TWO_64: nat := 0x1_0000_0000_0000_0000

  lemma Rest64(x: nat, q: int, r: nat)
    requires x == 64 * q + r && r < 64
    ensures x % 64 == r
  {}

  lemma Rest32(x: nat, q: int, r: nat)
    requires x == TWO_32 * q + r && r < TWO_32
    ensures x % TWO_32 == r && x / TWO_32 == q
  {}

  lemma RestLong(x: nat, q: int, r: nat)
    requires x == TWO_64 * q + r && r < TWO_64
    ensures x % TWO_64 == r && x / TWO_64 == q
  {}

  lemma Split32(x: nat)
    ensures x == TWO_32 * (x / TWO_32) + x % TWO_32 && x % TWO_32 < TWO_32
  {}

  lemma SplitLong(x: nat)
    ensures x == TWO_64 * (x / TWO_64) + x % TWO_64 && x % TWO_64 < TWO_64
  {}

  lemma AddModulo32(x: nat, y: nat)
    ensures (x % TWO_32 + y % TWO_32) % TWO_32 == (x + y) % TWO_32
  {
    var s := x % TWO_32 + y % TWO_32;
    Split32(x);
    Split32(y);
    Split32(s);
    Rest32(x + y, x / TWO_32 + y / TWO_32 + s / TWO_32, s % TWO_32);
  }

  lemma AddModuloLong(x: nat, y: nat)
    ensures (x % TWO_64 + y) % TWO_64 == (x + y) % TWO_64
  {
    var s := x % TWO_64 + y;
    SplitLong(x);
    SplitLong(s);
    RestLong(x + y, x / TWO_64 + s / TWO_64, s % TWO_64);
  }

  /** Dropping the high part of a two-word number. */
  lemma TwoWords(s: nat, d: nat)
    requires d < TWO_32
    ensures (TWO_32 * s + d) % TWO_64 == TWO_32 * (s % TWO_32) + d
  {
    Split32(s);
    RestLong(TWO_32 * s + d, s / TWO_32, TWO_32 * (s % TWO_32) + d);
  }

  /** The low and high word of x modulo 2^64 are those of x. */
  lemma WordsOf(x: nat)
    ensures x % TWO_64 % TWO_32 == x % TWO_32
    ensures x % TWO_64 / TWO_32 == x / TWO_32 % TWO_32
  {
    var s, d := x / TWO_32, x % TWO_32;
    Split32(x);
    Split32(s);
    TwoWords(s, d);
    Rest32(TWO_32 * (s % TWO_32) + d, s % TWO_32, d);
  }

  lemma LongMod64(x: nat)
    ensures x % TWO_64 % 64 == x % 64
  {
    SplitLong(x);
    var r := x % TWO_64;
    Rest64(x, x / TWO_64 * 0x400_0000_0000_0000 + r / 64, r % 64);
  }
}
