/** The SHA-1 digest of "abc", the first example of FIPS 180. One block goes through every
    constant, rotation and byte order of the digest. */
module KnownSha1 {
  import opened Bytes
  import opened Blocks
  import opened Sha1Spec

  const ABC: seq<byte> := [0x61, 0x62, 0x63]

  lemma PaddedAbc(lengthBytes: seq<byte>)
    requires |lengthBytes| == 8
    ensures Pad(ABC, lengthBytes) == [0x61, 0x62, 0x63, 0x80] + Zeros(52) + lengthBytes
  {
    ZeroBytesSmallest(3);
  }

  lemma OneBlock<S>(f: (S, Block) -> S, st: S, blk: Block)
    ensures Fold(f, st, blk) == f(st, blk)
  {
    FoldSnoc(f, st, [], blk);
    assert [] + blk == blk;
  }

  const BLOCK: Block := [0x61, 0x62, 0x63, 0x80] + Zeros(52) + [0, 0, 0, 0, 0, 0, 0, 24]

  function Word(t: nat): word
  {
    W(BLOCK, t)
  }

  function RegsAfter(n: nat): Regs
  {
    Rounds(INITIAL_HASH, BLOCK, n)
  }

  lemma FirstWord()
    ensures Word(0) == 0x61626380
  {}

  lemma LastWord()
    ensures Word(15) == 24
  {}

  lemma ZeroWords(t: nat)
    requires 1 <= t < 15
    ensures Word(t) == 0
  {
    ZeroWord([0, 0, 0, 0]);
    assert BLOCK[4 * t..4 * t + 4] == [0, 0, 0, 0];
  }

  lemma ZeroWord(b: seq<byte>)
    requires b == [0, 0, 0, 0]
    ensures FromBE32(b) == 0
  {}

  lemma NextWord(t: nat)
    requires t >= 16
    ensures Word(t) == Expand(Word(t - 3), Word(t - 8), Word(t - 14), Word(t - 16))
  {}

  lemma FourWords(t: nat)
    requires t >= 16
    ensures Word(t) == Expand(Word(t - 3), Word(t - 8), Word(t - 14), Word(t - 16))
    ensures Word(t + 1) == Expand(Word(t - 2), Word(t - 7), Word(t - 13), Word(t - 15))
    ensures Word(t + 2) == Expand(Word(t - 1), Word(t - 6), Word(t - 12), Word(t - 14))
    ensures Word(t + 3) == Expand(Word(t), Word(t - 5), Word(t - 11), Word(t - 13))
  {
    hide Word, Expand;
    NextWord(t);
    NextWord(t + 1);
    NextWord(t + 2);
    NextWord(t + 3);
  }

  lemma NextRegs(n: nat)
    ensures RegsAfter(n + 1) == Round(RegsAfter(n), n, Word(n))
  {}

  lemma FourRounds(n: nat)
    ensures RegsAfter(n + 1) == Round(RegsAfter(n), n, Word(n))
    ensures RegsAfter(n + 2) == Round(RegsAfter(n + 1), n + 1, Word(n + 1))
    ensures RegsAfter(n + 3) == Round(RegsAfter(n + 2), n + 2, Word(n + 2))
    ensures RegsAfter(n + 4) == Round(RegsAfter(n + 3), n + 3, Word(n + 3))
  {
    hide RegsAfter, Word, Round;
    NextRegs(n);
    NextRegs(n + 1);
    NextRegs(n + 2);
    NextRegs(n + 3);
  }

  lemma Words1()
    ensures Word(0) == 0x61626380 && Word(1) == 0x00000000 && Word(2) == 0x00000000
    ensures Word(3) == 0x00000000 && Word(4) == 0x00000000 && Word(5) == 0x00000000
    ensures Word(6) == 0x00000000 && Word(7) == 0x00000000 && Word(8) == 0x00000000
    ensures Word(9) == 0x00000000 && Word(10) == 0x00000000 && Word(11) == 0x00000000
    ensures Word(12) == 0x00000000 && Word(13) == 0x00000000 && Word(14) == 0x00000000
    ensures Word(15) == 0x00000018
  {
    FirstWord();
    LastWord();
    hide Word;
    forall t | 1 <= t < 15 ensures Word(t) == 0 {
      ZeroWords(t);
    }
  }

  lemma Words2()
    ensures Word(16) == 0xc2c4c700 && Word(17) == 0x00000000 && Word(18) == 0x00000030
    ensures Word(19) == 0x85898e01 && Word(20) == 0x00000000 && Word(21) == 0x00000060
    ensures Word(22) == 0x0b131c03 && Word(23) == 0x00000030 && Word(24) == 0x85898ec1
    ensures Word(25) == 0x16263806 && Word(26) == 0x00000000 && Word(27) == 0x00000180
    ensures Word(28) == 0x2c4c700c && Word(29) == 0x000000f0 && Word(30) == 0x93afb507
    ensures Word(31) == 0x5898e048
  {
    Words1();
    hide Word;
    FourWords(16);
    FourWords(20);
    FourWords(24);
    FourWords(28);
  }

  lemma Words3()
    ensures Word(32) == 0x8e9a9202 && Word(33) == 0x00000600 && Word(34) == 0xb131c0f0
    ensures Word(35) == 0x16263bc6 && Word(36) == 0x4ebed41e && Word(37) == 0x626380a1
    ensures Word(38) == 0x16263806 && Word(39) == 0x000018c0 && Word(40) == 0xd2e138c4
    ensures Word(41) == 0x00000f00 && Word(42) == 0x3afb5079 && Word(43) == 0x898e04e5
    ensures Word(44) == 0xe2ba3c2b && Word(45) == 0x000060c0 && Word(46) == 0x053a37cd
    ensures Word(47) == 0x74458547
  {
    Words2();
    hide Word;
    FourWords(32);
    FourWords(36);
    FourWords(40);
    FourWords(44);
  }

  lemma Words4()
    ensures Word(48) == 0xda9415ed && Word(49) == 0x26380a16 && Word(50) == 0x626383a1
    ensures Word(51) == 0x4ebf54de && Word(52) == 0x3835b44b && Word(53) == 0x0000f600
    ensures Word(54) == 0x1e84c7a3 && Word(55) == 0x98e04d98 && Word(56) == 0x651d16a0
    ensures Word(57) == 0x62658ca1 && Word(58) == 0x458544d6 && Word(59) == 0x44584cb7
    ensures Word(60) == 0x7ba06619 && Word(61) == 0x6380aea2 && Word(62) == 0x0ae55269
    ensures Word(63) == 0x627b49a1
  {
    Words3();
    hide Word;
    FourWords(48);
    FourWords(52);
    FourWords(56);
    FourWords(60);
  }

  lemma Words5()
    ensures Word(64) == 0x7cd45c9d && Word(65) == 0x000f0000 && Word(66) == 0xfb50753a
    ensures Word(67) == 0xec6765e8 && Word(68) == 0xba3c2be2 && Word(69) == 0x0060c000
    ensures Word(70) == 0x3a37cd05 && Word(71) == 0x458546f4 && Word(72) == 0xb8599dd6
    ensures Word(73) == 0x380a1a26 && Word(74) == 0x01e02203 && Word(75) == 0xe7cc3456
    ensures Word(76) == 0xe6e60b69 && Word(77) == 0x00f60a00 && Word(78) == 0x5795ef4f
    ensures Word(79) == 0x822e0879
  {
    Words4();
    hide Word;
    FourWords(64);
    FourWords(68);
    FourWords(72);
    FourWords(76);
  }

  lemma Rounds0()
    ensures RegsAfter(0) == Regs(0x67452301, 0xefcdab89, 0x98badcfe, 0x10325476, 0xc3d2e1f0)
  {}

  lemma Rounds1()
    ensures RegsAfter(20) == Regs(0xfd9e1d7d, 0xdc64901d, 0x20aa99ca, 0xd3a49608, 0xc82f758b)
  {
    Rounds0();
    Words1();
    Words2();
    hide RegsAfter, Word;
    FourRounds(0);
    FourRounds(4);
    FourRounds(8);
    FourRounds(12);
    FourRounds(16);
  }

  lemma Rounds2()
    ensures RegsAfter(40) == Regs(0x32de1cba, 0x4c986405, 0xf718e5cf, 0x03d447f6, 0xf72eec32)
  {
    Rounds1();
    Words2();
    Words3();
    hide RegsAfter, Word;
    FourRounds(20);
    FourRounds(24);
    FourRounds(28);
    FourRounds(32);
    FourRounds(36);
  }

  lemma Rounds3()
    ensures RegsAfter(60) == Regs(0x3f52de5a, 0x09d785fd, 0x3498bfd4, 0xf211824f, 0xd79915ab)
  {
    Rounds2();
    Words3();
    Words4();
    hide RegsAfter, Word;
    FourRounds(40);
    FourRounds(44);
    FourRounds(48);
    FourRounds(52);
    FourRounds(56);
  }

  lemma Rounds4()
    ensures RegsAfter(80) == Regs(0x42541b35, 0x5738d5e1, 0x21834873, 0x681e6df6, 0xd8fdf6ad)
  {
    Rounds3();
    Words4();
    Words5();
    hide RegsAfter, Word;
    FourRounds(60);
    FourRounds(64);
    FourRounds(68);
    FourRounds(72);
    FourRounds(76);
  }

  lemma OutputOfAbc()
    ensures Output(Add(INITIAL_HASH, Regs(0x42541b35, 0x5738d5e1, 0x21834873, 0x681e6df6, 0xd8fdf6ad)))
         == [0xa9, 0x99, 0x3e, 0x36, 0x47, 0x06, 0x81, 0x6a, 0xba, 0x3e,
             0x25, 0x71, 0x78, 0x50, 0xc2, 0x6c, 0x9c, 0xd0, 0xd8, 0x9d]
  {}

  lemma LengthOfAbc()
    ensures BE64(24) == [0, 0, 0, 0, 0, 0, 0, 24]
  {
    HighByte(0);
    HighByte(1);
    HighByte(2);
    HighByte(3);
    LowBytes();
    hide ByteOf;
  }

  lemma HighByte(i: nat)
    requires i < 4
    ensures ByteOf(0, i) == 0
  {}

  lemma LowBytes()
    ensures ByteOf(24, 0) == 0 && ByteOf(24, 1) == 0 && ByteOf(24, 2) == 0 && ByteOf(24, 3) == 24
  {}

  lemma DigestOfAbc()
    ensures Digest(ABC)
         == [0xa9, 0x99, 0x3e, 0x36, 0x47, 0x06, 0x81, 0x6a, 0xba, 0x3e,
             0x25, 0x71, 0x78, 0x50, 0xc2, 0x6c, 0x9c, 0xd0, 0xd8, 0x9d]
  {
    LengthOfAbc();
    PaddedAbc([0, 0, 0, 0, 0, 0, 0, 24]);
    Rounds4();
    OneBlock(Compress, INITIAL_HASH, BLOCK);
    OutputOfAbc();
    hide Output, Add, BE64, Rounds, Pad, Fold;
  }
}
