/** The MD5 digest of "abc", from the test suite of RFC 1321, section A.5. One block goes through
    every constant, rotation and byte order of the digest. */
module KnownMd5 {
  import opened Bytes
  import opened Blocks
  import opened Md5Spec
  import KnownSha1

  const BLOCK: Block := [0x61, 0x62, 0x63, 0x80] + Zeros(52) + [24, 0, 0, 0, 0, 0, 0, 0]

  const WORDS: seq<word> := [0x80636261, 0x0, 0x0, 0x0, 0x0, 0x0, 0x0, 0x0, 0x0, 0x0, 0x0, 0x0, 0x0, 0x0, 0x18, 0x0]

  function After(n: nat): Regs
    requires n <= 64
  {
    Operations(INITIAL_REGS, WORDS, n)
  }

  lemma WordsOfAbc()
    ensures Words(BLOCK) == WORDS
  {
    ZeroWord([0, 0, 0, 0]);
    EndWords();
    hide FromLE32;
    forall j | (1 <= j < 14 || j == 15) ensures Words(BLOCK)[j] == 0 {
      assert BLOCK[4 * j..4 * j + 4] == [0, 0, 0, 0];
    }
  }

  lemma ZeroWord(b: seq<byte>)
    requires b == [0, 0, 0, 0]
    ensures FromLE32(b) == 0
  {}

  lemma EndWords()
    ensures Words(BLOCK)[0] == 0x80636261 && Words(BLOCK)[14] == 24
  {}

  lemma NextAfter(n: nat)
    requires n < 64
    ensures After(n + 1) == Operation(After(n), n, WORDS)
  {}

  function Next(n: nat, a: word, b: word, c: word, d: word): word
    requires n < 64
  {
    NewWord(n, a, b, c, d, WORDS[InputIndex(n)])
  }

  /** Operation n: its constant t, its rotation s, its input word x, and the result v. */
  lemma Is(n: nat, t: word, s: word, x: word, a: word, b: word, c: word, d: word, v: word)
    requires n < 64 && s <= 32 && T(n) == t && ShiftAmount(n) == s && WORDS[InputIndex(n)] == x
    requires Plus(b, Rotl(Sum(a, Auxiliary(n / 16, b, c, d), t, x), s)) == v
    ensures Next(n, a, b, c, d) == v
  {}

  /** One turn through [ABCD], [DABC], [CDAB], [BCDA]. */
  lemma FourOperations(n: nat, r: Regs)
    requires n % 4 == 0 && n <= 60 && After(n) == r
    ensures var a := Next(n, r[0], r[1], r[2], r[3]);
            var d := Next(n + 1, r[3], a, r[1], r[2]);
            var c := Next(n + 2, r[2], d, a, r[1]);
            var b := Next(n + 3, r[1], c, d, a);
            After(n + 4) == [a, b, c, d]
  {
    hide After, Next;
    FirstOfFour(n);
    SecondOfFour(n + 1);
    ThirdOfFour(n + 2);
    FourthOfFour(n + 3);
  }

  lemma FirstOfFour(n: nat)
    requires n % 4 == 0 && n < 64
    ensures var r := After(n); After(n + 1) == [Next(n, r[0], r[1], r[2], r[3]), r[1], r[2], r[3]]
  {
    hide After, NewWord, InputIndex, WORDS;
    NextAfter(n);
  }

  lemma SecondOfFour(n: nat)
    requires n % 4 == 1 && n < 64
    ensures var r := After(n); After(n + 1) == [r[0], r[1], r[2], Next(n, r[3], r[0], r[1], r[2])]
  {
    hide After, NewWord, InputIndex, WORDS;
    NextAfter(n);
  }

  lemma ThirdOfFour(n: nat)
    requires n % 4 == 2 && n < 64
    ensures var r := After(n); After(n + 1) == [r[0], r[1], Next(n, r[2], r[3], r[0], r[1]), r[3]]
  {
    hide After, NewWord, InputIndex, WORDS;
    NextAfter(n);
  }

  lemma FourthOfFour(n: nat)
    requires n % 4 == 3 && n < 64
    ensures var r := After(n); After(n + 1) == [r[0], Next(n, r[1], r[2], r[3], r[0]), r[2], r[3]]
  {
    hide After, NewWord, InputIndex, WORDS;
    NextAfter(n);
  }

  lemma Operations0()
    ensures After(0) == [0x67452301, 0xefcdab89, 0x98badcfe, 0x10325476]
  {}

  lemma Constants1()
    ensures
      && T(0) == 0xd76aa478 && T(1) == 0xe8c7b756 && T(2) == 0x242070db && T(3) == 0xc1bdceee
      && T(4) == 0xf57c0faf && T(5) == 0x4787c62a && T(6) == 0xa8304613 && T(7) == 0xfd469501
  {}

  lemma Constants2()
    ensures
      && T(8) == 0x698098d8 && T(9) == 0x8b44f7af && T(10) == 0xffff5bb1 && T(11) == 0x895cd7be
      && T(12) == 0x6b901122 && T(13) == 0xfd987193 && T(14) == 0xa679438e && T(15) == 0x49b40821
  {}

  lemma Constants3()
    ensures
      && T(16) == 0xf61e2562 && T(17) == 0xc040b340 && T(18) == 0x265e5a51 && T(19) == 0xe9b6c7aa
      && T(20) == 0xd62f105d && T(21) == 0x02441453 && T(22) == 0xd8a1e681 && T(23) == 0xe7d3fbc8
  {}

  lemma Constants4()
    ensures
      && T(24) == 0x21e1cde6 && T(25) == 0xc33707d6 && T(26) == 0xf4d50d87 && T(27) == 0x455a14ed
      && T(28) == 0xa9e3e905 && T(29) == 0xfcefa3f8 && T(30) == 0x676f02d9 && T(31) == 0x8d2a4c8a
  {}

  lemma Constants5()
    ensures
      && T(32) == 0xfffa3942 && T(33) == 0x8771f681 && T(34) == 0x6d9d6122 && T(35) == 0xfde5380c
      && T(36) == 0xa4beea44 && T(37) == 0x4bdecfa9 && T(38) == 0xf6bb4b60 && T(39) == 0xbebfbc70
  {}

  lemma Constants6()
    ensures
      && T(40) == 0x289b7ec6 && T(41) == 0xeaa127fa && T(42) == 0xd4ef3085 && T(43) == 0x04881d05
      && T(44) == 0xd9d4d039 && T(45) == 0xe6db99e5 && T(46) == 0x1fa27cf8 && T(47) == 0xc4ac5665
  {}

  lemma Constants7()
    ensures
      && T(48) == 0xf4292244 && T(49) == 0x432aff97 && T(50) == 0xab9423a7 && T(51) == 0xfc93a039
      && T(52) == 0x655b59c3 && T(53) == 0x8f0ccc92 && T(54) == 0xffeff47d && T(55) == 0x85845dd1
  {}

  lemma Constants8()
    ensures
      && T(56) == 0x6fa87e4f && T(57) == 0xfe2ce6e0 && T(58) == 0xa3014314 && T(59) == 0x4e0811a1
      && T(60) == 0xf7537e82 && T(61) == 0xbd3af235 && T(62) == 0x2ad7d2bb && T(63) == 0xeb86d391
  {}

  lemma Rotations1()
    ensures
      && ShiftAmount(0) == 7 && ShiftAmount(1) == 12 && ShiftAmount(2) == 17 && ShiftAmount(3) == 22
      && ShiftAmount(4) == 7 && ShiftAmount(5) == 12 && ShiftAmount(6) == 17 && ShiftAmount(7) == 22
      && ShiftAmount(8) == 7 && ShiftAmount(9) == 12 && ShiftAmount(10) == 17 && ShiftAmount(11) == 22
      && ShiftAmount(12) == 7 && ShiftAmount(13) == 12 && ShiftAmount(14) == 17 && ShiftAmount(15) == 22
  {}

  lemma Indices1()
    ensures
      && InputIndex(0) == 0 && InputIndex(1) == 1 && InputIndex(2) == 2 && InputIndex(3) == 3
      && InputIndex(4) == 4 && InputIndex(5) == 5 && InputIndex(6) == 6 && InputIndex(7) == 7
      && InputIndex(8) == 8 && InputIndex(9) == 9 && InputIndex(10) == 10 && InputIndex(11) == 11
      && InputIndex(12) == 12 && InputIndex(13) == 13 && InputIndex(14) == 14 && InputIndex(15) == 15
  {}

  lemma Rotations2()
    ensures
      && ShiftAmount(16) == 5 && ShiftAmount(17) == 9 && ShiftAmount(18) == 14 && ShiftAmount(19) == 20
      && ShiftAmount(20) == 5 && ShiftAmount(21) == 9 && ShiftAmount(22) == 14 && ShiftAmount(23) == 20
      && ShiftAmount(24) == 5 && ShiftAmount(25) == 9 && ShiftAmount(26) == 14 && ShiftAmount(27) == 20
      && ShiftAmount(28) == 5 && ShiftAmount(29) == 9 && ShiftAmount(30) == 14 && ShiftAmount(31) == 20
  {}

  lemma Indices2()
    ensures
      && InputIndex(16) == 1 && InputIndex(17) == 6 && InputIndex(18) == 11 && InputIndex(19) == 0
      && InputIndex(20) == 5 && InputIndex(21) == 10 && InputIndex(22) == 15 && InputIndex(23) == 4
      && InputIndex(24) == 9 && InputIndex(25) == 14 && InputIndex(26) == 3 && InputIndex(27) == 8
      && InputIndex(28) == 13 && InputIndex(29) == 2 && InputIndex(30) == 7 && InputIndex(31) == 12
  {}

  lemma Rotations3()
    ensures
      && ShiftAmount(32) == 4 && ShiftAmount(33) == 11 && ShiftAmount(34) == 16 && ShiftAmount(35) == 23
      && ShiftAmount(36) == 4 && ShiftAmount(37) == 11 && ShiftAmount(38) == 16 && ShiftAmount(39) == 23
      && ShiftAmount(40) == 4 && ShiftAmount(41) == 11 && ShiftAmount(42) == 16 && ShiftAmount(43) == 23
      && ShiftAmount(44) == 4 && ShiftAmount(45) == 11 && ShiftAmount(46) == 16 && ShiftAmount(47) == 23
  {}

  lemma Indices3()
    ensures
      && InputIndex(32) == 5 && InputIndex(33) == 8 && InputIndex(34) == 11 && InputIndex(35) == 14
      && InputIndex(36) == 1 && InputIndex(37) == 4 && InputIndex(38) == 7 && InputIndex(39) == 10
      && InputIndex(40) == 13 && InputIndex(41) == 0 && InputIndex(42) == 3 && InputIndex(43) == 6
      && InputIndex(44) == 9 && InputIndex(45) == 12 && InputIndex(46) == 15 && InputIndex(47) == 2
  {}

  lemma Rotations4()
    ensures
      && ShiftAmount(48) == 6 && ShiftAmount(49) == 10 && ShiftAmount(50) == 15 && ShiftAmount(51) == 21
      && ShiftAmount(52) == 6 && ShiftAmount(53) == 10 && ShiftAmount(54) == 15 && ShiftAmount(55) == 21
      && ShiftAmount(56) == 6 && ShiftAmount(57) == 10 && ShiftAmount(58) == 15 && ShiftAmount(59) == 21
      && ShiftAmount(60) == 6 && ShiftAmount(61) == 10 && ShiftAmount(62) == 15 && ShiftAmount(63) == 21
  {}

  lemma Indices4()
    ensures
      && InputIndex(48) == 0 && InputIndex(49) == 7 && InputIndex(50) == 14 && InputIndex(51) == 5
      && InputIndex(52) == 12 && InputIndex(53) == 3 && InputIndex(54) == 10 && InputIndex(55) == 1
      && InputIndex(56) == 8 && InputIndex(57) == 15 && InputIndex(58) == 6 && InputIndex(59) == 13
      && InputIndex(60) == 4 && InputIndex(61) == 11 && InputIndex(62) == 2 && InputIndex(63) == 9
  {}

  lemma WordsAre()
    ensures
      && WORDS[0] == 0x80636261 && WORDS[1] == 0x0 && WORDS[2] == 0x0 && WORDS[3] == 0x0
      && WORDS[4] == 0x0 && WORDS[5] == 0x0 && WORDS[6] == 0x0 && WORDS[7] == 0x0
      && WORDS[8] == 0x0 && WORDS[9] == 0x0 && WORDS[10] == 0x0 && WORDS[11] == 0x0
      && WORDS[12] == 0x0 && WORDS[13] == 0x0 && WORDS[14] == 0x18 && WORDS[15] == 0x0
  {}

  lemma Operations1()
    ensures After(8) == [0xc73741ef, 0x928d99f6, 0x207dc67b, 0x8bac3051]
  {
    Constants1();
    Rotations1();
    Indices1();
    WordsAre();
    hide T, ShiftAmount, InputIndex, WORDS;
    Is(0, 0xd76aa478, 7, 0x80636261, 0x67452301, 0xefcdab89, 0x98badcfe, 0x10325476, 0xd6d117b4);
    Is(1, 0xe8c7b756, 12, 0x0, 0x10325476, 0xd6d117b4, 0xefcdab89, 0x98badcfe, 0x344a8432);
    Is(2, 0x242070db, 17, 0x0, 0x98badcfe, 0x344a8432, 0xd6d117b4, 0xefcdab89, 0x2f6fbd72);
    Is(3, 0xc1bdceee, 22, 0x0, 0xefcdab89, 0x2f6fbd72, 0x344a8432, 0xd6d117b4, 0x7ad956f2);
    Is(4, 0xf57c0faf, 7, 0x0, 0xd6d117b4, 0x7ad956f2, 0x2f6fbd72, 0x344a8432, 0xc73741ef);
    Is(5, 0x4787c62a, 12, 0x0, 0x344a8432, 0xc73741ef, 0x7ad956f2, 0x2f6fbd72, 0x8bac3051);
    Is(6, 0xa8304613, 17, 0x0, 0x2f6fbd72, 0x8bac3051, 0xc73741ef, 0x7ad956f2, 0x207dc67b);
    Is(7, 0xfd469501, 22, 0x0, 0x7ad956f2, 0x207dc67b, 0x8bac3051, 0xc73741ef, 0x928d99f6);
    hide After, Next;
    Operations0();
    FourOperations(0, [0x67452301, 0xefcdab89, 0x98badcfe, 0x10325476]);
    FourOperations(4, [0xd6d117b4, 0x7ad956f2, 0x2f6fbd72, 0x344a8432]);
  }

  lemma Operations2()
    ensures After(16) == [0xdda9b9a6, 0x72aff2e0, 0xe396856b, 0xa1051895]
  {
    Constants2();
    Rotations1();
    Indices1();
    WordsAre();
    hide T, ShiftAmount, InputIndex, WORDS;
    Is(8, 0x698098d8, 7, 0x0, 0xc73741ef, 0x928d99f6, 0x207dc67b, 0x8bac3051, 0x854b3712);
    Is(9, 0x8b44f7af, 12, 0x0, 0x8bac3051, 0x854b3712, 0x928d99f6, 0x207dc67b, 0x74e2f284);
    Is(10, 0xffff5bb1, 17, 0x0, 0x207dc67b, 0x74e2f284, 0x854b3712, 0x928d99f6, 0x3020401c);
    Is(11, 0x895cd7be, 22, 0x0, 0x928d99f6, 0x3020401c, 0x74e2f284, 0x854b3712, 0x5ed49596);
    Is(12, 0x6b901122, 7, 0x0, 0x854b3712, 0x5ed49596, 0x3020401c, 0x74e2f284, 0xdda9b9a6);
    Is(13, 0xfd987193, 12, 0x0, 0x74e2f284, 0xdda9b9a6, 0x5ed49596, 0x3020401c, 0xa1051895);
    Is(14, 0xa679438e, 17, 0x18, 0x3020401c, 0xa1051895, 0xdda9b9a6, 0x5ed49596, 0xe396856b);
    Is(15, 0x49b40821, 22, 0x0, 0x5ed49596, 0xe396856b, 0xa1051895, 0xdda9b9a6, 0x72aff2e0);
    hide After, Next;
    Operations1();
    FourOperations(8, [0xc73741ef, 0x928d99f6, 0x207dc67b, 0x8bac3051]);
    FourOperations(12, [0x854b3712, 0x5ed49596, 0x3020401c, 0x74e2f284]);
  }

  lemma Operations3()
    ensures After(24) == [0x59a8ffda, 0x47092c07, 0xabfc7920, 0x6d002f1e]
  {
    Constants3();
    Rotations2();
    Indices2();
    WordsAre();
    hide T, ShiftAmount, InputIndex, WORDS;
    Is(16, 0xf61e2562, 5, 0x0, 0xdda9b9a6, 0x72aff2e0, 0xe396856b, 0xa1051895, 0x3e9e9126);
    Is(17, 0xc040b340, 9, 0x0, 0xa1051895, 0x3e9e9126, 0x72aff2e0, 0xe396856b, 0x4a1d804e);
    Is(18, 0x265e5a51, 14, 0x0, 0xe396856b, 0x4a1d804e, 0x3e9e9126, 0x72aff2e0, 0xe25e1652);
    Is(19, 0xe9b6c7aa, 20, 0x80636261, 0x72aff2e0, 0xe25e1652, 0x4a1d804e, 0x3e9e9126, 0xb5b204e4);
    Is(20, 0xd62f105d, 5, 0x0, 0x3e9e9126, 0xb5b204e4, 0xe25e1652, 0x4a1d804e, 0x59a8ffda);
    Is(21, 0x02441453, 9, 0x0, 0x4a1d804e, 0x59a8ffda, 0xb5b204e4, 0xe25e1652, 0x6d002f1e);
    Is(22, 0xd8a1e681, 14, 0x0, 0xe25e1652, 0x6d002f1e, 0x59a8ffda, 0xb5b204e4, 0xabfc7920);
    Is(23, 0xe7d3fbc8, 20, 0x0, 0xb5b204e4, 0xabfc7920, 0x6d002f1e, 0x59a8ffda, 0x47092c07);
    hide After, Next;
    Operations2();
    FourOperations(16, [0xdda9b9a6, 0x72aff2e0, 0xe396856b, 0xa1051895]);
    FourOperations(20, [0x3e9e9126, 0xb5b204e4, 0xe25e1652, 0x4a1d804e]);
  }

  lemma Operations4()
    ensures After(32) == [0x790a77fb, 0x726342d3, 0xa62884aa, 0x9f47e4f8]
  {
    Constants4();
    Rotations2();
    Indices2();
    WordsAre();
    hide T, ShiftAmount, InputIndex, WORDS;
    Is(24, 0x21e1cde6, 5, 0x0, 0x59a8ffda, 0x47092c07, 0xabfc7920, 0x6d002f1e, 0xb7f268cf);
    Is(25, 0xc33707d6, 9, 0x18, 0x6d002f1e, 0xb7f268cf, 0x47092c07, 0xabfc7920, 0x09388eff);
    Is(26, 0xf4d50d87, 14, 0x0, 0xabfc7920, 0x09388eff, 0xb7f268cf, 0x47092c07, 0xfe1623b1);
    Is(27, 0x455a14ed, 20, 0x0, 0x47092c07, 0xfe1623b1, 0x09388eff, 0xb7f268cf, 0x786acb8f);
    Is(28, 0xa9e3e905, 5, 0x0, 0xb7f268cf, 0x786acb8f, 0xfe1623b1, 0x09388eff, 0x790a77fb);
    Is(29, 0xfcefa3f8, 9, 0x0, 0x09388eff, 0x790a77fb, 0x786acb8f, 0xfe1623b1, 0x9f47e4f8);
    Is(30, 0x676f02d9, 14, 0x0, 0xfe1623b1, 0x9f47e4f8, 0x790a77fb, 0x786acb8f, 0xa62884aa);
    Is(31, 0x8d2a4c8a, 20, 0x0, 0x786acb8f, 0xa62884aa, 0x9f47e4f8, 0x790a77fb, 0x726342d3);
    hide After, Next;
    Operations3();
    FourOperations(24, [0x59a8ffda, 0x47092c07, 0xabfc7920, 0x6d002f1e]);
    FourOperations(28, [0xb7f268cf, 0x786acb8f, 0xfe1623b1, 0x09388eff]);
  }

  lemma Operations5()
    ensures After(40) == [0x21b117b9, 0x5a2f5ea5, 0x3575227e, 0x6e7429d5]
  {
    Constants5();
    Rotations3();
    Indices3();
    WordsAre();
    hide T, ShiftAmount, InputIndex, WORDS;
    Is(32, 0xfffa3942, 4, 0x0, 0x790a77fb, 0x726342d3, 0xa62884aa, 0x9f47e4f8, 0xb3707ebf);
    Is(33, 0x8771f681, 11, 0x0, 0x9f47e4f8, 0xb3707ebf, 0x726342d3, 0xa62884aa, 0x60127b2e);
    Is(34, 0x6d9d6122, 16, 0x0, 0xa62884aa, 0x60127b2e, 0xb3707ebf, 0x726342d3, 0x8d212ff5);
    Is(35, 0xfde5380c, 23, 0x18, 0x726342d3, 0x8d212ff5, 0x60127b2e, 0xb3707ebf, 0x3b0875c7);
    Is(36, 0xa4beea44, 4, 0x0, 0xb3707ebf, 0x3b0875c7, 0x8d212ff5, 0x60127b2e, 0x21b117b9);
    Is(37, 0x4bdecfa9, 11, 0x0, 0x60127b2e, 0x21b117b9, 0x3b0875c7, 0x8d212ff5, 0x6e7429d5);
    Is(38, 0xf6bb4b60, 16, 0x0, 0x8d212ff5, 0x6e7429d5, 0x21b117b9, 0x3b0875c7, 0x3575227e);
    Is(39, 0xbebfbc70, 23, 0x0, 0x3b0875c7, 0x3575227e, 0x6e7429d5, 0x21b117b9, 0x5a2f5ea5);
    hide After, Next;
    Operations4();
    FourOperations(32, [0x790a77fb, 0x726342d3, 0xa62884aa, 0x9f47e4f8]);
    FourOperations(36, [0xb3707ebf, 0x3b0875c7, 0x8d212ff5, 0x60127b2e]);
  }

  lemma Operations6()
    ensures After(48) == [0x7f2e507b, 0x7beb9700, 0x8fae6399, 0x99d9679d]
  {
    Constants6();
    Rotations3();
    Indices3();
    WordsAre();
    hide T, ShiftAmount, InputIndex, WORDS;
    Is(40, 0x289b7ec6, 4, 0x0, 0x21b117b9, 0x5a2f5ea5, 0x3575227e, 0x6e7429d5, 0x11de1779);
    Is(41, 0xeaa127fa, 11, 0x80636261, 0x6e7429d5, 0x11de1779, 0x5a2f5ea5, 0x3575227e, 0xfadcaa38);
    Is(42, 0xd4ef3085, 16, 0x0, 0x3575227e, 0xfadcaa38, 0x11de1779, 0x5a2f5ea5, 0x31c465ca);
    Is(43, 0x04881d05, 23, 0x0, 0x5a2f5ea5, 0x31c465ca, 0xfadcaa38, 0x11de1779, 0x4c6124f4);
    Is(44, 0xd9d4d039, 4, 0x0, 0x11de1779, 0x4c6124f4, 0x31c465ca, 0xfadcaa38, 0x7f2e507b);
    Is(45, 0xe6db99e5, 11, 0x0, 0xfadcaa38, 0x7f2e507b, 0x4c6124f4, 0x31c465ca, 0x99d9679d);
    Is(46, 0x1fa27cf8, 16, 0x0, 0x31c465ca, 0x99d9679d, 0x7f2e507b, 0x4c6124f4, 0x8fae6399);
    Is(47, 0xc4ac5665, 23, 0x0, 0x4c6124f4, 0x8fae6399, 0x99d9679d, 0x7f2e507b, 0x7beb9700);
    hide After, Next;
    Operations5();
    FourOperations(40, [0x21b117b9, 0x5a2f5ea5, 0x3575227e, 0x6e7429d5]);
    FourOperations(44, [0x11de1779, 0x4c6124f4, 0x31c465ca, 0xfadcaa38]);
  }

  lemma Operations7()
    ensures After(56) == [0x06cc5e8a, 0x3bfa2c27, 0x7d632dd0, 0x5b0d97aa]
  {
    Constants7();
    Rotations4();
    Indices4();
    WordsAre();
    hide T, ShiftAmount, InputIndex, WORDS;
    Is(48, 0xf4292244, 6, 0x80636261, 0x7f2e507b, 0x7beb9700, 0x8fae6399, 0x99d9679d, 0x7b201df8);
    Is(49, 0x432aff97, 10, 0x0, 0x99d9679d, 0x7b201df8, 0x7beb9700, 0x8fae6399, 0xf4e8e96e);
    Is(50, 0xab9423a7, 15, 0x18, 0x8fae6399, 0xf4e8e96e, 0x7b201df8, 0x7beb9700, 0xb298cefd);
    Is(51, 0xfc93a039, 21, 0x0, 0x7beb9700, 0xb298cefd, 0xf4e8e96e, 0x7b201df8, 0x8bf025c4);
    Is(52, 0x655b59c3, 6, 0x0, 0x7b201df8, 0x8bf025c4, 0xb298cefd, 0xf4e8e96e, 0x06cc5e8a);
    Is(53, 0x8f0ccc92, 10, 0x0, 0xf4e8e96e, 0x06cc5e8a, 0x8bf025c4, 0xb298cefd, 0x5b0d97aa);
    Is(54, 0xffeff47d, 15, 0x0, 0xb298cefd, 0x5b0d97aa, 0x06cc5e8a, 0x8bf025c4, 0x7d632dd0);
    Is(55, 0x85845dd1, 21, 0x0, 0x8bf025c4, 0x7d632dd0, 0x5b0d97aa, 0x06cc5e8a, 0x3bfa2c27);
    hide After, Next;
    Operations6();
    FourOperations(48, [0x7f2e507b, 0x7beb9700, 0x8fae6399, 0x99d9679d]);
    FourOperations(52, [0x7b201df8, 0x8bf025c4, 0xb298cefd, 0xf4e8e96e]);
  }

  lemma Operations8()
    ensures After(64) == [0x310ade8f, 0xc08226b3, 0xe484b9d8, 0x624d8cb2]
  {
    Constants8();
    Rotations4();
    Indices4();
    WordsAre();
    hide T, ShiftAmount, InputIndex, WORDS;
    Is(56, 0x6fa87e4f, 6, 0x0, 0x06cc5e8a, 0x3bfa2c27, 0x7d632dd0, 0x5b0d97aa, 0x7f81cc35);
    Is(57, 0xfe2ce6e0, 10, 0x0, 0x5b0d97aa, 0x7f81cc35, 0x3bfa2c27, 0x7d632dd0, 0x094454ab);
    Is(58, 0xa3014314, 15, 0x0, 0x7d632dd0, 0x094454ab, 0x7f81cc35, 0x3bfa2c27, 0x4f9dbe3f);
    Is(59, 0x4e0811a1, 21, 0x0, 0x3bfa2c27, 0x4f9dbe3f, 0x094454ab, 0x7f81cc35, 0x7327d604);
    Is(60, 0xf7537e82, 6, 0x0, 0x7f81cc35, 0x7327d604, 0x4f9dbe3f, 0x094454ab, 0x310ade8f);
    Is(61, 0xbd3af235, 10, 0x0, 0x094454ab, 0x310ade8f, 0x7327d604, 0x4f9dbe3f, 0x624d8cb2);
    Is(62, 0x2ad7d2bb, 15, 0x0, 0x4f9dbe3f, 0x624d8cb2, 0x310ade8f, 0x7327d604, 0xe484b9d8);
    Is(63, 0xeb86d391, 21, 0x0, 0x7327d604, 0xe484b9d8, 0x624d8cb2, 0x310ade8f, 0xc08226b3);
    hide After, Next;
    Operations7();
    FourOperations(56, [0x06cc5e8a, 0x3bfa2c27, 0x7d632dd0, 0x5b0d97aa]);
    FourOperations(60, [0x7f81cc35, 0x7327d604, 0x4f9dbe3f, 0x094454ab]);
  }

  lemma OutputOfAbc()
    ensures Output(Add(INITIAL_REGS, [0x310ade8f, 0xc08226b3, 0xe484b9d8, 0x624d8cb2]))
         == [0x90, 0x01, 0x50, 0x98, 0x3c, 0xd2, 0x4f, 0xb0,
             0xd6, 0x96, 0x3f, 0x7d, 0x28, 0xe1, 0x7f, 0x72]
  {}

  lemma LengthOfAbc()
    ensures LE64(24) == [24, 0, 0, 0, 0, 0, 0, 0]
  {}

  lemma DigestOfAbc()
    ensures Digest(KnownSha1.ABC)
         == [0x90, 0x01, 0x50, 0x98, 0x3c, 0xd2, 0x4f, 0xb0,
             0xd6, 0x96, 0x3f, 0x7d, 0x28, 0xe1, 0x7f, 0x72]
  {
    LengthOfAbc();
    KnownSha1.PaddedAbc([24, 0, 0, 0, 0, 0, 0, 0]);
    WordsOfAbc();
    Operations8();
    KnownSha1.OneBlock(Compress, INITIAL_REGS, BLOCK);
    OutputOfAbc();
    hide Output, Add, LE64, Words, Operations, Pad, Fold;
  }
}
