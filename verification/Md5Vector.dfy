/**
  A digest from the test suite of RFC 1321 (section A.5): MD5 ("abc").  The 64 steps are
  followed on bit-vectors, four at a time.
 */
module Md5Vector {
  import opened Md5Block
  import opened Md5
  import opened Octets

  const ABC: Bytes := [0x61, 0x62, 0x63]

  /** The block: the message, 0x80, zeros, and its length in bits. */
  const WORDS: seq<Word> := [0x80636261, 0, 0, 0, 0, 0, 0, 0, 0, 0, 0, 0, 0, 0, 24, 0]

  function Of(a: bv32, b: bv32, c: bv32, d: bv32): State {
    State(FromBits(a), FromBits(b), FromBits(c), FromBits(d))
  }

  lemma BitsAgain(w: bv32)
    ensures FromBits(w) as bv32 == w
  {
  }

  lemma StepIs(round: nat, w: bv32, x: bv32, y: bv32, z: bv32, m: Word, t: Word, s: nat, m': bv32, t': bv32)
    requires 0 < s < 32 && m == FromBits(m') && t == FromBits(t')
    ensures Step(round, FromBits(w), FromBits(x), FromBits(y), FromBits(z), m, t, s)
         == FromBits(StepBits(round, w, x, y, z, m', t', s))
  {
    BitsAgain(w);
    BitsAgain(x);
    BitsAgain(y);
    BitsAgain(z);
    BitsAgain(m');
    BitsAgain(t');
    hide StepBits, FromBits;
  }

  /** Step `i` of a round takes the word `m` of the block, and adds the constant `t`. */
  predicate Takes(sines: seq<Word>, round: nat, i: nat, m: bv32, t: bv32)
    requires |sines| == 16 && i < 16
  {
    WORDS[WordIndex(round, i)] == FromBits(m) && sines[i] == FromBits(t)
  }

  /** Four steps, from the registers `a`, `b`, `c` and `d` to `a2`, `b2`, `c2` and `d2`. */
  lemma FourOf(st: State, sines: seq<Word>, round: nat, n: nat, a: bv32, b: bv32, c: bv32, d: bv32,
               m0: bv32, t0: bv32, m1: bv32, t1: bv32, m2: bv32, t2: bv32, m3: bv32, t3: bv32,
               a2: bv32, b2: bv32, c2: bv32, d2: bv32)
    requires |sines| == 16 && n <= 12 && n % 4 == 0 && RoundSteps(st, WORDS, sines, round, n) == Of(a, b, c, d)
    requires Takes(sines, round, n, m0, t0) && Takes(sines, round, n + 1, m1, t1)
    requires Takes(sines, round, n + 2, m2, t2) && Takes(sines, round, n + 3, m3, t3)
    requires a2 == StepBits(round, a, b, c, d, m0, t0, Shift(round, 0))
    requires d2 == StepBits(round, d, a2, b, c, m1, t1, Shift(round, 1))
    requires c2 == StepBits(round, c, d2, a2, b, m2, t2, Shift(round, 2))
    requires b2 == StepBits(round, b, c2, d2, a2, m3, t3, Shift(round, 3))
    ensures RoundSteps(st, WORDS, sines, round, n + 4) == Of(a2, b2, c2, d2)
  {
    hide Step, StepBits, FromBits, RoundSteps, WordIndex, Shift;
    FourSteps(st, WORDS, sines, round, n);
    StepIs(round, a, b, c, d, WORDS[WordIndex(round, n)], sines[n], Shift(round, 0), m0, t0);
    StepIs(round, d, a2, b, c, WORDS[WordIndex(round, n + 1)], sines[n + 1], Shift(round, 1), m1, t1);
    StepIs(round, c, d2, a2, b, WORDS[WordIndex(round, n + 2)], sines[n + 2], Shift(round, 2), m2, t2);
    StepIs(round, b, c2, d2, a2, WORDS[WordIndex(round, n + 3)], sines[n + 3], Shift(round, 3), m3, t3);
  }

  lemma Bits4()
    ensures StepBits(0, 0x67452301, 0xefcdab89, 0x98badcfe, 0x10325476, 0x80636261, 0xd76aa478, 7) == 0xd6d117b4
    ensures StepBits(0, 0x10325476, 0xd6d117b4, 0xefcdab89, 0x98badcfe, 0x00000000, 0xe8c7b756, 12) == 0x344a8432
    ensures StepBits(0, 0x98badcfe, 0x344a8432, 0xd6d117b4, 0xefcdab89, 0x00000000, 0x242070db, 17) == 0x2f6fbd72
    ensures StepBits(0, 0xefcdab89, 0x2f6fbd72, 0x344a8432, 0xd6d117b4, 0x00000000, 0xc1bdceee, 22) == 0x7ad956f2
  {
    assert StepBits(0, 0x67452301, 0xefcdab89, 0x98badcfe, 0x10325476, 0x80636261, 0xd76aa478, 7) == 0xd6d117b4;
    assert StepBits(0, 0x10325476, 0xd6d117b4, 0xefcdab89, 0x98badcfe, 0x00000000, 0xe8c7b756, 12) == 0x344a8432;
    assert StepBits(0, 0x98badcfe, 0x344a8432, 0xd6d117b4, 0xefcdab89, 0x00000000, 0x242070db, 17) == 0x2f6fbd72;
    assert StepBits(0, 0xefcdab89, 0x2f6fbd72, 0x344a8432, 0xd6d117b4, 0x00000000, 0xc1bdceee, 22) == 0x7ad956f2;
  }

  lemma Steps4(st: State)
    requires RoundSteps(st, WORDS, SINES1, 0, 0) == Of(0x67452301, 0xefcdab89, 0x98badcfe, 0x10325476)
    ensures RoundSteps(st, WORDS, SINES1, 0, 4) == Of(0xd6d117b4, 0x7ad956f2, 0x2f6fbd72, 0x344a8432)
  {
    hide RoundSteps, StepBits, Of;
    Bits4();
    FourOf(st, SINES1, 0, 0, 0x67452301, 0xefcdab89, 0x98badcfe, 0x10325476,
           0x80636261, 0xd76aa478, 0x00000000, 0xe8c7b756, 0x00000000, 0x242070db, 0x00000000,
           0xc1bdceee, 0xd6d117b4, 0x7ad956f2, 0x2f6fbd72, 0x344a8432);
  }

  lemma Bits8()
    ensures StepBits(0, 0xd6d117b4, 0x7ad956f2, 0x2f6fbd72, 0x344a8432, 0x00000000, 0xf57c0faf, 7) == 0xc73741ef
    ensures StepBits(0, 0x344a8432, 0xc73741ef, 0x7ad956f2, 0x2f6fbd72, 0x00000000, 0x4787c62a, 12) == 0x8bac3051
    ensures StepBits(0, 0x2f6fbd72, 0x8bac3051, 0xc73741ef, 0x7ad956f2, 0x00000000, 0xa8304613, 17) == 0x207dc67b
    ensures StepBits(0, 0x7ad956f2, 0x207dc67b, 0x8bac3051, 0xc73741ef, 0x00000000, 0xfd469501, 22) == 0x928d99f6
  {
    assert StepBits(0, 0xd6d117b4, 0x7ad956f2, 0x2f6fbd72, 0x344a8432, 0x00000000, 0xf57c0faf, 7) == 0xc73741ef;
    assert StepBits(0, 0x344a8432, 0xc73741ef, 0x7ad956f2, 0x2f6fbd72, 0x00000000, 0x4787c62a, 12) == 0x8bac3051;
    assert StepBits(0, 0x2f6fbd72, 0x8bac3051, 0xc73741ef, 0x7ad956f2, 0x00000000, 0xa8304613, 17) == 0x207dc67b;
    assert StepBits(0, 0x7ad956f2, 0x207dc67b, 0x8bac3051, 0xc73741ef, 0x00000000, 0xfd469501, 22) == 0x928d99f6;
  }

  lemma Steps8(st: State)
    requires RoundSteps(st, WORDS, SINES1, 0, 4) == Of(0xd6d117b4, 0x7ad956f2, 0x2f6fbd72, 0x344a8432)
    ensures RoundSteps(st, WORDS, SINES1, 0, 8) == Of(0xc73741ef, 0x928d99f6, 0x207dc67b, 0x8bac3051)
  {
    hide RoundSteps, StepBits, Of;
    Bits8();
    FourOf(st, SINES1, 0, 4, 0xd6d117b4, 0x7ad956f2, 0x2f6fbd72, 0x344a8432,
           0x00000000, 0xf57c0faf, 0x00000000, 0x4787c62a, 0x00000000, 0xa8304613, 0x00000000,
           0xfd469501, 0xc73741ef, 0x928d99f6, 0x207dc67b, 0x8bac3051);
  }

  lemma Bits12()
    ensures StepBits(0, 0xc73741ef, 0x928d99f6, 0x207dc67b, 0x8bac3051, 0x00000000, 0x698098d8, 7) == 0x854b3712
    ensures StepBits(0, 0x8bac3051, 0x854b3712, 0x928d99f6, 0x207dc67b, 0x00000000, 0x8b44f7af, 12) == 0x74e2f284
    ensures StepBits(0, 0x207dc67b, 0x74e2f284, 0x854b3712, 0x928d99f6, 0x00000000, 0xffff5bb1, 17) == 0x3020401c
    ensures StepBits(0, 0x928d99f6, 0x3020401c, 0x74e2f284, 0x854b3712, 0x00000000, 0x895cd7be, 22) == 0x5ed49596
  {
    assert StepBits(0, 0xc73741ef, 0x928d99f6, 0x207dc67b, 0x8bac3051, 0x00000000, 0x698098d8, 7) == 0x854b3712;
    assert StepBits(0, 0x8bac3051, 0x854b3712, 0x928d99f6, 0x207dc67b, 0x00000000, 0x8b44f7af, 12) == 0x74e2f284;
    assert StepBits(0, 0x207dc67b, 0x74e2f284, 0x854b3712, 0x928d99f6, 0x00000000, 0xffff5bb1, 17) == 0x3020401c;
    assert StepBits(0, 0x928d99f6, 0x3020401c, 0x74e2f284, 0x854b3712, 0x00000000, 0x895cd7be, 22) == 0x5ed49596;
  }

  lemma Steps12(st: State)
    requires RoundSteps(st, WORDS, SINES1, 0, 8) == Of(0xc73741ef, 0x928d99f6, 0x207dc67b, 0x8bac3051)
    ensures RoundSteps(st, WORDS, SINES1, 0, 12) == Of(0x854b3712, 0x5ed49596, 0x3020401c, 0x74e2f284)
  {
    hide RoundSteps, StepBits, Of;
    Bits12();
    FourOf(st, SINES1, 0, 8, 0xc73741ef, 0x928d99f6, 0x207dc67b, 0x8bac3051,
           0x00000000, 0x698098d8, 0x00000000, 0x8b44f7af, 0x00000000, 0xffff5bb1, 0x00000000,
           0x895cd7be, 0x854b3712, 0x5ed49596, 0x3020401c, 0x74e2f284);
  }

  lemma Bits16()
    ensures StepBits(0, 0x854b3712, 0x5ed49596, 0x3020401c, 0x74e2f284, 0x00000000, 0x6b901122, 7) == 0xdda9b9a6
    ensures StepBits(0, 0x74e2f284, 0xdda9b9a6, 0x5ed49596, 0x3020401c, 0x00000000, 0xfd987193, 12) == 0xa1051895
    ensures StepBits(0, 0x3020401c, 0xa1051895, 0xdda9b9a6, 0x5ed49596, 0x00000018, 0xa679438e, 17) == 0xe396856b
    ensures StepBits(0, 0x5ed49596, 0xe396856b, 0xa1051895, 0xdda9b9a6, 0x00000000, 0x49b40821, 22) == 0x72aff2e0
  {
    assert StepBits(0, 0x854b3712, 0x5ed49596, 0x3020401c, 0x74e2f284, 0x00000000, 0x6b901122, 7) == 0xdda9b9a6;
    assert StepBits(0, 0x74e2f284, 0xdda9b9a6, 0x5ed49596, 0x3020401c, 0x00000000, 0xfd987193, 12) == 0xa1051895;
    assert StepBits(0, 0x3020401c, 0xa1051895, 0xdda9b9a6, 0x5ed49596, 0x00000018, 0xa679438e, 17) == 0xe396856b;
    assert StepBits(0, 0x5ed49596, 0xe396856b, 0xa1051895, 0xdda9b9a6, 0x00000000, 0x49b40821, 22) == 0x72aff2e0;
  }

  lemma Steps16(st: State)
    requires RoundSteps(st, WORDS, SINES1, 0, 12) == Of(0x854b3712, 0x5ed49596, 0x3020401c, 0x74e2f284)
    ensures RoundSteps(st, WORDS, SINES1, 0, 16) == Of(0xdda9b9a6, 0x72aff2e0, 0xe396856b, 0xa1051895)
  {
    hide RoundSteps, StepBits, Of;
    Bits16();
    FourOf(st, SINES1, 0, 12, 0x854b3712, 0x5ed49596, 0x3020401c, 0x74e2f284,
           0x00000000, 0x6b901122, 0x00000000, 0xfd987193, 0x00000018, 0xa679438e, 0x00000000,
           0x49b40821, 0xdda9b9a6, 0x72aff2e0, 0xe396856b, 0xa1051895);
  }

  lemma Round1()
    ensures RoundSteps(Of(0x67452301, 0xefcdab89, 0x98badcfe, 0x10325476), WORDS, SINES1, 0, 16)
         == Of(0xdda9b9a6, 0x72aff2e0, 0xe396856b, 0xa1051895)
  {
    hide RoundSteps;
    var st := Of(0x67452301, 0xefcdab89, 0x98badcfe, 0x10325476);
    NoSteps(st, WORDS, SINES1, 0);
    Steps4(st);
    Steps8(st);
    Steps12(st);
    Steps16(st);
  }

  lemma Bits20()
    ensures StepBits(1, 0xdda9b9a6, 0x72aff2e0, 0xe396856b, 0xa1051895, 0x00000000, 0xf61e2562, 5) == 0x3e9e9126
    ensures StepBits(1, 0xa1051895, 0x3e9e9126, 0x72aff2e0, 0xe396856b, 0x00000000, 0xc040b340, 9) == 0x4a1d804e
    ensures StepBits(1, 0xe396856b, 0x4a1d804e, 0x3e9e9126, 0x72aff2e0, 0x00000000, 0x265e5a51, 14) == 0xe25e1652
    ensures StepBits(1, 0x72aff2e0, 0xe25e1652, 0x4a1d804e, 0x3e9e9126, 0x80636261, 0xe9b6c7aa, 20) == 0xb5b204e4
  {
    assert StepBits(1, 0xdda9b9a6, 0x72aff2e0, 0xe396856b, 0xa1051895, 0x00000000, 0xf61e2562, 5) == 0x3e9e9126;
    assert StepBits(1, 0xa1051895, 0x3e9e9126, 0x72aff2e0, 0xe396856b, 0x00000000, 0xc040b340, 9) == 0x4a1d804e;
    assert StepBits(1, 0xe396856b, 0x4a1d804e, 0x3e9e9126, 0x72aff2e0, 0x00000000, 0x265e5a51, 14) == 0xe25e1652;
    assert StepBits(1, 0x72aff2e0, 0xe25e1652, 0x4a1d804e, 0x3e9e9126, 0x80636261, 0xe9b6c7aa, 20) == 0xb5b204e4;
  }

  lemma Steps20(st: State)
    requires RoundSteps(st, WORDS, SINES2, 1, 0) == Of(0xdda9b9a6, 0x72aff2e0, 0xe396856b, 0xa1051895)
    ensures RoundSteps(st, WORDS, SINES2, 1, 4) == Of(0x3e9e9126, 0xb5b204e4, 0xe25e1652, 0x4a1d804e)
  {
    hide RoundSteps, StepBits, Of;
    Bits20();
    FourOf(st, SINES2, 1, 0, 0xdda9b9a6, 0x72aff2e0, 0xe396856b, 0xa1051895,
           0x00000000, 0xf61e2562, 0x00000000, 0xc040b340, 0x00000000, 0x265e5a51, 0x80636261,
           0xe9b6c7aa, 0x3e9e9126, 0xb5b204e4, 0xe25e1652, 0x4a1d804e);
  }

  lemma Bits24()
    ensures StepBits(1, 0x3e9e9126, 0xb5b204e4, 0xe25e1652, 0x4a1d804e, 0x00000000, 0xd62f105d, 5) == 0x59a8ffda
    ensures StepBits(1, 0x4a1d804e, 0x59a8ffda, 0xb5b204e4, 0xe25e1652, 0x00000000, 0x02441453, 9) == 0x6d002f1e
    ensures StepBits(1, 0xe25e1652, 0x6d002f1e, 0x59a8ffda, 0xb5b204e4, 0x00000000, 0xd8a1e681, 14) == 0xabfc7920
    ensures StepBits(1, 0xb5b204e4, 0xabfc7920, 0x6d002f1e, 0x59a8ffda, 0x00000000, 0xe7d3fbc8, 20) == 0x47092c07
  {
    assert StepBits(1, 0x3e9e9126, 0xb5b204e4, 0xe25e1652, 0x4a1d804e, 0x00000000, 0xd62f105d, 5) == 0x59a8ffda;
    assert StepBits(1, 0x4a1d804e, 0x59a8ffda, 0xb5b204e4, 0xe25e1652, 0x00000000, 0x02441453, 9) == 0x6d002f1e;
    assert StepBits(1, 0xe25e1652, 0x6d002f1e, 0x59a8ffda, 0xb5b204e4, 0x00000000, 0xd8a1e681, 14) == 0xabfc7920;
    assert StepBits(1, 0xb5b204e4, 0xabfc7920, 0x6d002f1e, 0x59a8ffda, 0x00000000, 0xe7d3fbc8, 20) == 0x47092c07;
  }

  lemma Steps24(st: State)
    requires RoundSteps(st, WORDS, SINES2, 1, 4) == Of(0x3e9e9126, 0xb5b204e4, 0xe25e1652, 0x4a1d804e)
    ensures RoundSteps(st, WORDS, SINES2, 1, 8) == Of(0x59a8ffda, 0x47092c07, 0xabfc7920, 0x6d002f1e)
  {
    hide RoundSteps, StepBits, Of;
    Bits24();
    FourOf(st, SINES2, 1, 4, 0x3e9e9126, 0xb5b204e4, 0xe25e1652, 0x4a1d804e,
           0x00000000, 0xd62f105d, 0x00000000, 0x02441453, 0x00000000, 0xd8a1e681, 0x00000000,
           0xe7d3fbc8, 0x59a8ffda, 0x47092c07, 0xabfc7920, 0x6d002f1e);
  }

  lemma Bits28()
    ensures StepBits(1, 0x59a8ffda, 0x47092c07, 0xabfc7920, 0x6d002f1e, 0x00000000, 0x21e1cde6, 5) == 0xb7f268cf
    ensures StepBits(1, 0x6d002f1e, 0xb7f268cf, 0x47092c07, 0xabfc7920, 0x00000018, 0xc33707d6, 9) == 0x09388eff
    ensures StepBits(1, 0xabfc7920, 0x09388eff, 0xb7f268cf, 0x47092c07, 0x00000000, 0xf4d50d87, 14) == 0xfe1623b1
    ensures StepBits(1, 0x47092c07, 0xfe1623b1, 0x09388eff, 0xb7f268cf, 0x00000000, 0x455a14ed, 20) == 0x786acb8f
  {
    assert StepBits(1, 0x59a8ffda, 0x47092c07, 0xabfc7920, 0x6d002f1e, 0x00000000, 0x21e1cde6, 5) == 0xb7f268cf;
    assert StepBits(1, 0x6d002f1e, 0xb7f268cf, 0x47092c07, 0xabfc7920, 0x00000018, 0xc33707d6, 9) == 0x09388eff;
    assert StepBits(1, 0xabfc7920, 0x09388eff, 0xb7f268cf, 0x47092c07, 0x00000000, 0xf4d50d87, 14) == 0xfe1623b1;
    assert StepBits(1, 0x47092c07, 0xfe1623b1, 0x09388eff, 0xb7f268cf, 0x00000000, 0x455a14ed, 20) == 0x786acb8f;
  }

  lemma Steps28(st: State)
    requires RoundSteps(st, WORDS, SINES2, 1, 8) == Of(0x59a8ffda, 0x47092c07, 0xabfc7920, 0x6d002f1e)
    ensures RoundSteps(st, WORDS, SINES2, 1, 12) == Of(0xb7f268cf, 0x786acb8f, 0xfe1623b1, 0x09388eff)
  {
    hide RoundSteps, StepBits, Of;
    Bits28();
    FourOf(st, SINES2, 1, 8, 0x59a8ffda, 0x47092c07, 0xabfc7920, 0x6d002f1e,
           0x00000000, 0x21e1cde6, 0x00000018, 0xc33707d6, 0x00000000, 0xf4d50d87, 0x00000000,
           0x455a14ed, 0xb7f268cf, 0x786acb8f, 0xfe1623b1, 0x09388eff);
  }

  lemma Bits32()
    ensures StepBits(1, 0xb7f268cf, 0x786acb8f, 0xfe1623b1, 0x09388eff, 0x00000000, 0xa9e3e905, 5) == 0x790a77fb
    ensures StepBits(1, 0x09388eff, 0x790a77fb, 0x786acb8f, 0xfe1623b1, 0x00000000, 0xfcefa3f8, 9) == 0x9f47e4f8
    ensures StepBits(1, 0xfe1623b1, 0x9f47e4f8, 0x790a77fb, 0x786acb8f, 0x00000000, 0x676f02d9, 14) == 0xa62884aa
    ensures StepBits(1, 0x786acb8f, 0xa62884aa, 0x9f47e4f8, 0x790a77fb, 0x00000000, 0x8d2a4c8a, 20) == 0x726342d3
  {
    assert StepBits(1, 0xb7f268cf, 0x786acb8f, 0xfe1623b1, 0x09388eff, 0x00000000, 0xa9e3e905, 5) == 0x790a77fb;
    assert StepBits(1, 0x09388eff, 0x790a77fb, 0x786acb8f, 0xfe1623b1, 0x00000000, 0xfcefa3f8, 9) == 0x9f47e4f8;
    assert StepBits(1, 0xfe1623b1, 0x9f47e4f8, 0x790a77fb, 0x786acb8f, 0x00000000, 0x676f02d9, 14) == 0xa62884aa;
    assert StepBits(1, 0x786acb8f, 0xa62884aa, 0x9f47e4f8, 0x790a77fb, 0x00000000, 0x8d2a4c8a, 20) == 0x726342d3;
  }

  lemma Steps32(st: State)
    requires RoundSteps(st, WORDS, SINES2, 1, 12) == Of(0xb7f268cf, 0x786acb8f, 0xfe1623b1, 0x09388eff)
    ensures RoundSteps(st, WORDS, SINES2, 1, 16) == Of(0x790a77fb, 0x726342d3, 0xa62884aa, 0x9f47e4f8)
  {
    hide RoundSteps, StepBits, Of;
    Bits32();
    FourOf(st, SINES2, 1, 12, 0xb7f268cf, 0x786acb8f, 0xfe1623b1, 0x09388eff,
           0x00000000, 0xa9e3e905, 0x00000000, 0xfcefa3f8, 0x00000000, 0x676f02d9, 0x00000000,
           0x8d2a4c8a, 0x790a77fb, 0x726342d3, 0xa62884aa, 0x9f47e4f8);
  }

  lemma Round2()
    ensures RoundSteps(Of(0xdda9b9a6, 0x72aff2e0, 0xe396856b, 0xa1051895), WORDS, SINES2, 1, 16)
         == Of(0x790a77fb, 0x726342d3, 0xa62884aa, 0x9f47e4f8)
  {
    hide RoundSteps;
    var st := Of(0xdda9b9a6, 0x72aff2e0, 0xe396856b, 0xa1051895);
    NoSteps(st, WORDS, SINES2, 1);
    Steps20(st);
    Steps24(st);
    Steps28(st);
    Steps32(st);
  }

  lemma Bits36()
    ensures StepBits(2, 0x790a77fb, 0x726342d3, 0xa62884aa, 0x9f47e4f8, 0x00000000, 0xfffa3942, 4) == 0xb3707ebf
    ensures StepBits(2, 0x9f47e4f8, 0xb3707ebf, 0x726342d3, 0xa62884aa, 0x00000000, 0x8771f681, 11) == 0x60127b2e
    ensures StepBits(2, 0xa62884aa, 0x60127b2e, 0xb3707ebf, 0x726342d3, 0x00000000, 0x6d9d6122, 16) == 0x8d212ff5
    ensures StepBits(2, 0x726342d3, 0x8d212ff5, 0x60127b2e, 0xb3707ebf, 0x00000018, 0xfde5380c, 23) == 0x3b0875c7
  {
    assert StepBits(2, 0x790a77fb, 0x726342d3, 0xa62884aa, 0x9f47e4f8, 0x00000000, 0xfffa3942, 4) == 0xb3707ebf;
    assert StepBits(2, 0x9f47e4f8, 0xb3707ebf, 0x726342d3, 0xa62884aa, 0x00000000, 0x8771f681, 11) == 0x60127b2e;
    assert StepBits(2, 0xa62884aa, 0x60127b2e, 0xb3707ebf, 0x726342d3, 0x00000000, 0x6d9d6122, 16) == 0x8d212ff5;
    assert StepBits(2, 0x726342d3, 0x8d212ff5, 0x60127b2e, 0xb3707ebf, 0x00000018, 0xfde5380c, 23) == 0x3b0875c7;
  }

  lemma Steps36(st: State)
    requires RoundSteps(st, WORDS, SINES3, 2, 0) == Of(0x790a77fb, 0x726342d3, 0xa62884aa, 0x9f47e4f8)
    ensures RoundSteps(st, WORDS, SINES3, 2, 4) == Of(0xb3707ebf, 0x3b0875c7, 0x8d212ff5, 0x60127b2e)
  {
    hide RoundSteps, StepBits, Of;
    Bits36();
    FourOf(st, SINES3, 2, 0, 0x790a77fb, 0x726342d3, 0xa62884aa, 0x9f47e4f8,
           0x00000000, 0xfffa3942, 0x00000000, 0x8771f681, 0x00000000, 0x6d9d6122, 0x00000018,
           0xfde5380c, 0xb3707ebf, 0x3b0875c7, 0x8d212ff5, 0x60127b2e);
  }

  lemma Bits40()
    ensures StepBits(2, 0xb3707ebf, 0x3b0875c7, 0x8d212ff5, 0x60127b2e, 0x00000000, 0xa4beea44, 4) == 0x21b117b9
    ensures StepBits(2, 0x60127b2e, 0x21b117b9, 0x3b0875c7, 0x8d212ff5, 0x00000000, 0x4bdecfa9, 11) == 0x6e7429d5
    ensures StepBits(2, 0x8d212ff5, 0x6e7429d5, 0x21b117b9, 0x3b0875c7, 0x00000000, 0xf6bb4b60, 16) == 0x3575227e
    ensures StepBits(2, 0x3b0875c7, 0x3575227e, 0x6e7429d5, 0x21b117b9, 0x00000000, 0xbebfbc70, 23) == 0x5a2f5ea5
  {
    assert StepBits(2, 0xb3707ebf, 0x3b0875c7, 0x8d212ff5, 0x60127b2e, 0x00000000, 0xa4beea44, 4) == 0x21b117b9;
    assert StepBits(2, 0x60127b2e, 0x21b117b9, 0x3b0875c7, 0x8d212ff5, 0x00000000, 0x4bdecfa9, 11) == 0x6e7429d5;
    assert StepBits(2, 0x8d212ff5, 0x6e7429d5, 0x21b117b9, 0x3b0875c7, 0x00000000, 0xf6bb4b60, 16) == 0x3575227e;
    assert StepBits(2, 0x3b0875c7, 0x3575227e, 0x6e7429d5, 0x21b117b9, 0x00000000, 0xbebfbc70, 23) == 0x5a2f5ea5;
  }

  lemma Steps40(st: State)
    requires RoundSteps(st, WORDS, SINES3, 2, 4) == Of(0xb3707ebf, 0x3b0875c7, 0x8d212ff5, 0x60127b2e)
    ensures RoundSteps(st, WORDS, SINES3, 2, 8) == Of(0x21b117b9, 0x5a2f5ea5, 0x3575227e, 0x6e7429d5)
  {
    hide RoundSteps, StepBits, Of;
    Bits40();
    FourOf(st, SINES3, 2, 4, 0xb3707ebf, 0x3b0875c7, 0x8d212ff5, 0x60127b2e,
           0x00000000, 0xa4beea44, 0x00000000, 0x4bdecfa9, 0x00000000, 0xf6bb4b60, 0x00000000,
           0xbebfbc70, 0x21b117b9, 0x5a2f5ea5, 0x3575227e, 0x6e7429d5);
  }

  lemma Bits44()
    ensures StepBits(2, 0x21b117b9, 0x5a2f5ea5, 0x3575227e, 0x6e7429d5, 0x00000000, 0x289b7ec6, 4) == 0x11de1779
    ensures StepBits(2, 0x6e7429d5, 0x11de1779, 0x5a2f5ea5, 0x3575227e, 0x80636261, 0xeaa127fa, 11) == 0xfadcaa38
    ensures StepBits(2, 0x3575227e, 0xfadcaa38, 0x11de1779, 0x5a2f5ea5, 0x00000000, 0xd4ef3085, 16) == 0x31c465ca
    ensures StepBits(2, 0x5a2f5ea5, 0x31c465ca, 0xfadcaa38, 0x11de1779, 0x00000000, 0x04881d05, 23) == 0x4c6124f4
  {
    assert StepBits(2, 0x21b117b9, 0x5a2f5ea5, 0x3575227e, 0x6e7429d5, 0x00000000, 0x289b7ec6, 4) == 0x11de1779;
    assert StepBits(2, 0x6e7429d5, 0x11de1779, 0x5a2f5ea5, 0x3575227e, 0x80636261, 0xeaa127fa, 11) == 0xfadcaa38;
    assert StepBits(2, 0x3575227e, 0xfadcaa38, 0x11de1779, 0x5a2f5ea5, 0x00000000, 0xd4ef3085, 16) == 0x31c465ca;
    assert StepBits(2, 0x5a2f5ea5, 0x31c465ca, 0xfadcaa38, 0x11de1779, 0x00000000, 0x04881d05, 23) == 0x4c6124f4;
  }

  lemma Steps44(st: State)
    requires RoundSteps(st, WORDS, SINES3, 2, 8) == Of(0x21b117b9, 0x5a2f5ea5, 0x3575227e, 0x6e7429d5)
    ensures RoundSteps(st, WORDS, SINES3, 2, 12) == Of(0x11de1779, 0x4c6124f4, 0x31c465ca, 0xfadcaa38)
  {
    hide RoundSteps, StepBits, Of;
    Bits44();
    FourOf(st, SINES3, 2, 8, 0x21b117b9, 0x5a2f5ea5, 0x3575227e, 0x6e7429d5,
           0x00000000, 0x289b7ec6, 0x80636261, 0xeaa127fa, 0x00000000, 0xd4ef3085, 0x00000000,
           0x04881d05, 0x11de1779, 0x4c6124f4, 0x31c465ca, 0xfadcaa38);
  }

  lemma Bits48()
    ensures StepBits(2, 0x11de1779, 0x4c6124f4, 0x31c465ca, 0xfadcaa38, 0x00000000, 0xd9d4d039, 4) == 0x7f2e507b
    ensures StepBits(2, 0xfadcaa38, 0x7f2e507b, 0x4c6124f4, 0x31c465ca, 0x00000000, 0xe6db99e5, 11) == 0x99d9679d
    ensures StepBits(2, 0x31c465ca, 0x99d9679d, 0x7f2e507b, 0x4c6124f4, 0x00000000, 0x1fa27cf8, 16) == 0x8fae6399
    ensures StepBits(2, 0x4c6124f4, 0x8fae6399, 0x99d9679d, 0x7f2e507b, 0x00000000, 0xc4ac5665, 23) == 0x7beb9700
  {
    assert StepBits(2, 0x11de1779, 0x4c6124f4, 0x31c465ca, 0xfadcaa38, 0x00000000, 0xd9d4d039, 4) == 0x7f2e507b;
    assert StepBits(2, 0xfadcaa38, 0x7f2e507b, 0x4c6124f4, 0x31c465ca, 0x00000000, 0xe6db99e5, 11) == 0x99d9679d;
    assert StepBits(2, 0x31c465ca, 0x99d9679d, 0x7f2e507b, 0x4c6124f4, 0x00000000, 0x1fa27cf8, 16) == 0x8fae6399;
    assert StepBits(2, 0x4c6124f4, 0x8fae6399, 0x99d9679d, 0x7f2e507b, 0x00000000, 0xc4ac5665, 23) == 0x7beb9700;
  }

  lemma Steps48(st: State)
    requires RoundSteps(st, WORDS, SINES3, 2, 12) == Of(0x11de1779, 0x4c6124f4, 0x31c465ca, 0xfadcaa38)
    ensures RoundSteps(st, WORDS, SINES3, 2, 16) == Of(0x7f2e507b, 0x7beb9700, 0x8fae6399, 0x99d9679d)
  {
    hide RoundSteps, StepBits, Of;
    Bits48();
    FourOf(st, SINES3, 2, 12, 0x11de1779, 0x4c6124f4, 0x31c465ca, 0xfadcaa38,
           0x00000000, 0xd9d4d039, 0x00000000, 0xe6db99e5, 0x00000000, 0x1fa27cf8, 0x00000000,
           0xc4ac5665, 0x7f2e507b, 0x7beb9700, 0x8fae6399, 0x99d9679d);
  }

  lemma Round3()
    ensures RoundSteps(Of(0x790a77fb, 0x726342d3, 0xa62884aa, 0x9f47e4f8), WORDS, SINES3, 2, 16)
         == Of(0x7f2e507b, 0x7beb9700, 0x8fae6399, 0x99d9679d)
  {
    hide RoundSteps;
    var st := Of(0x790a77fb, 0x726342d3, 0xa62884aa, 0x9f47e4f8);
    NoSteps(st, WORDS, SINES3, 2);
    Steps36(st);
    Steps40(st);
    Steps44(st);
    Steps48(st);
  }

  lemma Bits52()
    ensures StepBits(3, 0x7f2e507b, 0x7beb9700, 0x8fae6399, 0x99d9679d, 0x80636261, 0xf4292244, 6) == 0x7b201df8
    ensures StepBits(3, 0x99d9679d, 0x7b201df8, 0x7beb9700, 0x8fae6399, 0x00000000, 0x432aff97, 10) == 0xf4e8e96e
    ensures StepBits(3, 0x8fae6399, 0xf4e8e96e, 0x7b201df8, 0x7beb9700, 0x00000018, 0xab9423a7, 15) == 0xb298cefd
    ensures StepBits(3, 0x7beb9700, 0xb298cefd, 0xf4e8e96e, 0x7b201df8, 0x00000000, 0xfc93a039, 21) == 0x8bf025c4
  {
    assert StepBits(3, 0x7f2e507b, 0x7beb9700, 0x8fae6399, 0x99d9679d, 0x80636261, 0xf4292244, 6) == 0x7b201df8;
    assert StepBits(3, 0x99d9679d, 0x7b201df8, 0x7beb9700, 0x8fae6399, 0x00000000, 0x432aff97, 10) == 0xf4e8e96e;
    assert StepBits(3, 0x8fae6399, 0xf4e8e96e, 0x7b201df8, 0x7beb9700, 0x00000018, 0xab9423a7, 15) == 0xb298cefd;
    assert StepBits(3, 0x7beb9700, 0xb298cefd, 0xf4e8e96e, 0x7b201df8, 0x00000000, 0xfc93a039, 21) == 0x8bf025c4;
  }

  lemma Steps52(st: State)
    requires RoundSteps(st, WORDS, SINES4, 3, 0) == Of(0x7f2e507b, 0x7beb9700, 0x8fae6399, 0x99d9679d)
    ensures RoundSteps(st, WORDS, SINES4, 3, 4) == Of(0x7b201df8, 0x8bf025c4, 0xb298cefd, 0xf4e8e96e)
  {
    hide RoundSteps, StepBits, Of;
    Bits52();
    FourOf(st, SINES4, 3, 0, 0x7f2e507b, 0x7beb9700, 0x8fae6399, 0x99d9679d,
           0x80636261, 0xf4292244, 0x00000000, 0x432aff97, 0x00000018, 0xab9423a7, 0x00000000,
           0xfc93a039, 0x7b201df8, 0x8bf025c4, 0xb298cefd, 0xf4e8e96e);
  }

  lemma Bits56()
    ensures StepBits(3, 0x7b201df8, 0x8bf025c4, 0xb298cefd, 0xf4e8e96e, 0x00000000, 0x655b59c3, 6) == 0x06cc5e8a
    ensures StepBits(3, 0xf4e8e96e, 0x06cc5e8a, 0x8bf025c4, 0xb298cefd, 0x00000000, 0x8f0ccc92, 10) == 0x5b0d97aa
    ensures StepBits(3, 0xb298cefd, 0x5b0d97aa, 0x06cc5e8a, 0x8bf025c4, 0x00000000, 0xffeff47d, 15) == 0x7d632dd0
    ensures StepBits(3, 0x8bf025c4, 0x7d632dd0, 0x5b0d97aa, 0x06cc5e8a, 0x00000000, 0x85845dd1, 21) == 0x3bfa2c27
  {
    assert StepBits(3, 0x7b201df8, 0x8bf025c4, 0xb298cefd, 0xf4e8e96e, 0x00000000, 0x655b59c3, 6) == 0x06cc5e8a;
    assert StepBits(3, 0xf4e8e96e, 0x06cc5e8a, 0x8bf025c4, 0xb298cefd, 0x00000000, 0x8f0ccc92, 10) == 0x5b0d97aa;
    assert StepBits(3, 0xb298cefd, 0x5b0d97aa, 0x06cc5e8a, 0x8bf025c4, 0x00000000, 0xffeff47d, 15) == 0x7d632dd0;
    assert StepBits(3, 0x8bf025c4, 0x7d632dd0, 0x5b0d97aa, 0x06cc5e8a, 0x00000000, 0x85845dd1, 21) == 0x3bfa2c27;
  }

  lemma Steps56(st: State)
    requires RoundSteps(st, WORDS, SINES4, 3, 4) == Of(0x7b201df8, 0x8bf025c4, 0xb298cefd, 0xf4e8e96e)
    ensures RoundSteps(st, WORDS, SINES4, 3, 8) == Of(0x06cc5e8a, 0x3bfa2c27, 0x7d632dd0, 0x5b0d97aa)
  {
    hide RoundSteps, StepBits, Of;
    Bits56();
    FourOf(st, SINES4, 3, 4, 0x7b201df8, 0x8bf025c4, 0xb298cefd, 0xf4e8e96e,
           0x00000000, 0x655b59c3, 0x00000000, 0x8f0ccc92, 0x00000000, 0xffeff47d, 0x00000000,
           0x85845dd1, 0x06cc5e8a, 0x3bfa2c27, 0x7d632dd0, 0x5b0d97aa);
  }

  lemma Bits60()
    ensures StepBits(3, 0x06cc5e8a, 0x3bfa2c27, 0x7d632dd0, 0x5b0d97aa, 0x00000000, 0x6fa87e4f, 6) == 0x7f81cc35
    ensures StepBits(3, 0x5b0d97aa, 0x7f81cc35, 0x3bfa2c27, 0x7d632dd0, 0x00000000, 0xfe2ce6e0, 10) == 0x094454ab
    ensures StepBits(3, 0x7d632dd0, 0x094454ab, 0x7f81cc35, 0x3bfa2c27, 0x00000000, 0xa3014314, 15) == 0x4f9dbe3f
    ensures StepBits(3, 0x3bfa2c27, 0x4f9dbe3f, 0x094454ab, 0x7f81cc35, 0x00000000, 0x4e0811a1, 21) == 0x7327d604
  {
    assert StepBits(3, 0x06cc5e8a, 0x3bfa2c27, 0x7d632dd0, 0x5b0d97aa, 0x00000000, 0x6fa87e4f, 6) == 0x7f81cc35;
    assert StepBits(3, 0x5b0d97aa, 0x7f81cc35, 0x3bfa2c27, 0x7d632dd0, 0x00000000, 0xfe2ce6e0, 10) == 0x094454ab;
    assert StepBits(3, 0x7d632dd0, 0x094454ab, 0x7f81cc35, 0x3bfa2c27, 0x00000000, 0xa3014314, 15) == 0x4f9dbe3f;
    assert StepBits(3, 0x3bfa2c27, 0x4f9dbe3f, 0x094454ab, 0x7f81cc35, 0x00000000, 0x4e0811a1, 21) == 0x7327d604;
  }

  lemma Steps60(st: State)
    requires RoundSteps(st, WORDS, SINES4, 3, 8) == Of(0x06cc5e8a, 0x3bfa2c27, 0x7d632dd0, 0x5b0d97aa)
    ensures RoundSteps(st, WORDS, SINES4, 3, 12) == Of(0x7f81cc35, 0x7327d604, 0x4f9dbe3f, 0x094454ab)
  {
    hide RoundSteps, StepBits, Of;
    Bits60();
    FourOf(st, SINES4, 3, 8, 0x06cc5e8a, 0x3bfa2c27, 0x7d632dd0, 0x5b0d97aa,
           0x00000000, 0x6fa87e4f, 0x00000000, 0xfe2ce6e0, 0x00000000, 0xa3014314, 0x00000000,
           0x4e0811a1, 0x7f81cc35, 0x7327d604, 0x4f9dbe3f, 0x094454ab);
  }

  lemma Bits64()
    ensures StepBits(3, 0x7f81cc35, 0x7327d604, 0x4f9dbe3f, 0x094454ab, 0x00000000, 0xf7537e82, 6) == 0x310ade8f
    ensures StepBits(3, 0x094454ab, 0x310ade8f, 0x7327d604, 0x4f9dbe3f, 0x00000000, 0xbd3af235, 10) == 0x624d8cb2
    ensures StepBits(3, 0x4f9dbe3f, 0x624d8cb2, 0x310ade8f, 0x7327d604, 0x00000000, 0x2ad7d2bb, 15) == 0xe484b9d8
    ensures StepBits(3, 0x7327d604, 0xe484b9d8, 0x624d8cb2, 0x310ade8f, 0x00000000, 0xeb86d391, 21) == 0xc08226b3
  {
    assert StepBits(3, 0x7f81cc35, 0x7327d604, 0x4f9dbe3f, 0x094454ab, 0x00000000, 0xf7537e82, 6) == 0x310ade8f;
    assert StepBits(3, 0x094454ab, 0x310ade8f, 0x7327d604, 0x4f9dbe3f, 0x00000000, 0xbd3af235, 10) == 0x624d8cb2;
    assert StepBits(3, 0x4f9dbe3f, 0x624d8cb2, 0x310ade8f, 0x7327d604, 0x00000000, 0x2ad7d2bb, 15) == 0xe484b9d8;
    assert StepBits(3, 0x7327d604, 0xe484b9d8, 0x624d8cb2, 0x310ade8f, 0x00000000, 0xeb86d391, 21) == 0xc08226b3;
  }

  lemma Steps64(st: State)
    requires RoundSteps(st, WORDS, SINES4, 3, 12) == Of(0x7f81cc35, 0x7327d604, 0x4f9dbe3f, 0x094454ab)
    ensures RoundSteps(st, WORDS, SINES4, 3, 16) == Of(0x310ade8f, 0xc08226b3, 0xe484b9d8, 0x624d8cb2)
  {
    hide RoundSteps, StepBits, Of;
    Bits64();
    FourOf(st, SINES4, 3, 12, 0x7f81cc35, 0x7327d604, 0x4f9dbe3f, 0x094454ab,
           0x00000000, 0xf7537e82, 0x00000000, 0xbd3af235, 0x00000000, 0x2ad7d2bb, 0x00000000,
           0xeb86d391, 0x310ade8f, 0xc08226b3, 0xe484b9d8, 0x624d8cb2);
  }

  lemma Round4()
    ensures RoundSteps(Of(0x7f2e507b, 0x7beb9700, 0x8fae6399, 0x99d9679d), WORDS, SINES4, 3, 16)
         == Of(0x310ade8f, 0xc08226b3, 0xe484b9d8, 0x624d8cb2)
  {
    hide RoundSteps;
    var st := Of(0x7f2e507b, 0x7beb9700, 0x8fae6399, 0x99d9679d);
    NoSteps(st, WORDS, SINES4, 3);
    Steps52(st);
    Steps56(st);
    Steps60(st);
    Steps64(st);
  }

  // ----- The message -----

  lemma {:induction false} ZeroWords(n: nat)
    ensures WordsOf(Zeros(4 * n)) == seq(n, i => 0)
    decreases n
  {
    if n > 0 {
      var z := Zeros(4 * n);
      assert z[..4] == [0, 0, 0, 0] && z[4..] == Zeros(4 * (n - 1));
      ZeroWords(n - 1);
      assert seq(n, i => 0) == [0] + seq(n - 1, i => 0);
    }
  }

  /** The message, padded, is the block. */
  lemma Padded()
    ensures |ABC + Padding(3)| == 64 && WordsOf(ABC + Padding(3)) == WORDS
  {
    hide WordsOf;
    var head: Bytes := [0x61, 0x62, 0x63, 0x80];
    var z := Zeros(52);
    assert ABC + Padding(3) == head + z + LengthBytes(3);
    WordsOfConcat(head + z, LengthBytes(3));
    WordsOfConcat(head, z);
    HeadWord(head);
    ZeroWords(13);
    TwoWords(24, 0);
    assert WORDS == [0x80636261] + seq(13, i => 0) + [24, 0];
  }

  lemma HeadWord(head: Bytes)
    requires head == [0x61, 0x62, 0x63, 0x80]
    ensures WordsOf(head) == [0x80636261]
  {
    assert head[..4] == head && head[4..] == [];
  }

  lemma TransformIs(st: State, x: seq<Word>, r1: State, r2: State, r3: State, r4: State)
    requires |x| == 16
    requires RoundSteps(st, x, SINES1, 0, 16) == r1 && RoundSteps(r1, x, SINES2, 1, 16) == r2
    requires RoundSteps(r2, x, SINES3, 2, 16) == r3 && RoundSteps(r3, x, SINES4, 3, 16) == r4
    ensures
      Transform(st, x) == State(AddWord(st.a, r4.a), AddWord(st.b, r4.b), AddWord(st.c, r4.c), AddWord(st.d, r4.d))
  {
    hide RoundSteps;
  }

  lemma AnswerBytes()
    ensures WordBytes(0x98500190) == [0x90, 0x01, 0x50, 0x98] && WordBytes(0xb04fd23c) == [0x3c, 0xd2, 0x4f, 0xb0]
    ensures WordBytes(0x7d3f96d6) == [0xd6, 0x96, 0x3f, 0x7d] && WordBytes(0x727fe128) == [0x28, 0xe1, 0x7f, 0x72]
  {
  }

  /** MD5 ("abc") = 900150983cd24fb0d6963f7d28e17f72 */
  lemma KnownDigest()
    ensures Digest(ABC) == [0x90, 0x01, 0x50, 0x98, 0x3c, 0xd2, 0x4f, 0xb0, 0xd6, 0x96, 0x3f, 0x7d, 0x28, 0xe1, 0x7f,
      0x72]
  {
    hide Transform, WordsOf, Padding, WordBytes, RoundSteps;
    Padded();
    OneBlock(INITIAL, ABC + Padding(3));
    Round1();
    Round2();
    Round3();
    Round4();
    TransformIs(INITIAL, WORDS, Of(0xdda9b9a6, 0x72aff2e0, 0xe396856b, 0xa1051895),
                Of(0x790a77fb, 0x726342d3, 0xa62884aa, 0x9f47e4f8),
                Of(0x7f2e507b, 0x7beb9700, 0x8fae6399, 0x99d9679d),
                Of(0x310ade8f, 0xc08226b3, 0xe484b9d8, 0x624d8cb2));
    AnswerBytes();
  }
}
