/**
  MD5Transform of md5c.c: the 64 steps on one block.
 */
module Md5Block {
  type Word = n: nat | n < 0x1_0000_0000

  datatype State = State(a: Word, b: Word, c: Word, d: Word)

  // ----- The four core functions, as the source writes them -----

  function F1(x: bv32, y: bv32, z: bv32): bv32 {
    z ^ (x & (y ^ z))
  }

  function F2(x: bv32, y: bv32, z: bv32): bv32 {
    F1(z, x, y)
  }

  function F3(x: bv32, y: bv32, z: bv32): bv32 {
    x ^ y ^ z
  }

  function F4(x: bv32, y: bv32, z: bv32): bv32 {
    y ^ (x | !z)
  }

  /** They are F, G, H and I of section 3.4 of RFC 1321. */
  lemma CoreFunctions(x: bv32, y: bv32, z: bv32)
    ensures F1(x, y, z) == (x & y) | (!x & z)
    ensures F2(x, y, z) == (x & z) | (y & !z)
    ensures F3(x, y, z) == x ^ y ^ z
    ensures F4(x, y, z) == y ^ (x | !z)
  {
  }

  function Core(round: nat, x: bv32, y: bv32, z: bv32): bv32 {
    if round == 0 then F1(x, y, z) else if round == 1 then F2(x, y, z) else if round == 2 then F3(x, y, z)
      else F4(x, y, z)
  }

  // ----- The steps -----

  /** The constant that each step adds. */
  const SINES1: seq<Word> :=
    [0xd76aa478, 0xe8c7b756, 0x242070db, 0xc1bdceee,
     0xf57c0faf, 0x4787c62a, 0xa8304613, 0xfd469501,
     0x698098d8, 0x8b44f7af, 0xffff5bb1, 0x895cd7be,
     0x6b901122, 0xfd987193, 0xa679438e, 0x49b40821]
  const SINES2: seq<Word> :=
    [0xf61e2562, 0xc040b340, 0x265e5a51, 0xe9b6c7aa,
     0xd62f105d, 0x02441453, 0xd8a1e681, 0xe7d3fbc8,
     0x21e1cde6, 0xc33707d6, 0xf4d50d87, 0x455a14ed,
     0xa9e3e905, 0xfcefa3f8, 0x676f02d9, 0x8d2a4c8a]
  const SINES3: seq<Word> :=
    [0xfffa3942, 0x8771f681, 0x6d9d6122, 0xfde5380c,
     0xa4beea44, 0x4bdecfa9, 0xf6bb4b60, 0xbebfbc70,
     0x289b7ec6, 0xeaa127fa, 0xd4ef3085, 0x04881d05,
     0xd9d4d039, 0xe6db99e5, 0x1fa27cf8, 0xc4ac5665]
  const SINES4: seq<Word> :=
    [0xf4292244, 0x432aff97, 0xab9423a7, 0xfc93a039,
     0x655b59c3, 0x8f0ccc92, 0xffeff47d, 0x85845dd1,
     0x6fa87e4f, 0xfe2ce6e0, 0xa3014314, 0x4e0811a1,
     0xf7537e82, 0xbd3af235, 0x2ad7d2bb, 0xeb86d391]

  function RotateLeft(w: bv32, s: nat): bv32
    requires 0 < s < 32
  {
    (w << s) | (w >> (32 - s))
  }

  function FromBits(w: bv32): Word {
    w as Word
  }

  /** MD5STEP with data m + t: w += f(x, y, z) + data, then rotated by s, then w += x. */
  function StepBits(round: nat, w: bv32, x: bv32, y: bv32, z: bv32, m: bv32, t: bv32, s: nat): bv32
    requires 0 < s < 32
  {
    RotateLeft(w + (Core(round, x, y, z) + (m + t)), s) + x
  }

  function Step(round: nat, w: Word, x: Word, y: Word, z: Word, m: Word, t: Word, s: nat): Word
    requires 0 < s < 32
  {
    FromBits(StepBits(round, w as bv32, x as bv32, y as bv32, z as bv32, m as bv32, t as bv32, s))
  }

  /** The word of the block that step i of a round adds: section 3.4 of RFC 1321. */
  function WordIndex(round: nat, i: nat): (k: nat)
    ensures k < 16
  {
    (if round == 0 then i else if round == 1 then 1 + 5 * i else if round == 2 then 5 + 3 * i else 7 * i) % 16
  }

  /** How far step i of a round rotates. */
  function Shift(round: nat, i: nat): (s: nat)
    ensures 0 < s < 32
  {
    var k := i % 4;
    if round == 0 then (if k == 0 then 7 else if k == 1 then 12 else if k == 2 then 17 else 22)
    else if round == 1 then (if k == 0 then 5 else if k == 1 then 9 else if k == 2 then 14 else 20)
    else if round == 2 then (if k == 0 then 4 else if k == 1 then 11 else if k == 2 then 16 else 23)
    else (if k == 0 then 6 else if k == 1 then 10 else if k == 2 then 15 else 21)
  }

  /** Step i of a round, then the registers renamed for the next. */
  function RoundStep(st: State, x: seq<Word>, sines: seq<Word>, round: nat, i: nat): State
    requires |x| == 16 && |sines| == 16 && i < 16
  {
    State(st.d, Step(round, st.a, st.b, st.c, st.d, x[WordIndex(round, i)], sines[i], Shift(round, i)), st.b, st.c)
  }

  function RoundSteps(st: State, x: seq<Word>, sines: seq<Word>, round: nat, n: nat): State
    requires |x| == 16 && |sines| == 16 && n <= 16
  {
    if n == 0 then st else RoundStep(RoundSteps(st, x, sines, round, n - 1), x, sines, round, n - 1)
  }

  /** Four steps bring the registers back to their names. */
  lemma FourSteps(st: State, x: seq<Word>, sines: seq<Word>, round: nat, n: nat)
    requires |x| == 16 && |sines| == 16 && n <= 12 && n % 4 == 0
    ensures
      var s := RoundSteps(st, x, sines, round, n);
      var a := Step(round, s.a, s.b, s.c, s.d, x[WordIndex(round, n)], sines[n], Shift(round, 0));
      var d := Step(round, s.d, a, s.b, s.c, x[WordIndex(round, n + 1)], sines[n + 1], Shift(round, 1));
      var c := Step(round, s.c, d, a, s.b, x[WordIndex(round, n + 2)], sines[n + 2], Shift(round, 2));
      var b := Step(round, s.b, c, d, a, x[WordIndex(round, n + 3)], sines[n + 3], Shift(round, 3));
      RoundSteps(st, x, sines, round, n + 4) == State(a, b, c, d)
  {
    hide Step;
    var s := RoundSteps(st, x, sines, round, n);
    var s1 := RoundStep(s, x, sines, round, n);
    var s2 := RoundStep(s1, x, sines, round, n + 1);
    var s3 := RoundStep(s2, x, sines, round, n + 2);
    assert RoundSteps(st, x, sines, round, n + 1) == s1;
    assert RoundSteps(st, x, sines, round, n + 2) == s2;
    assert RoundSteps(st, x, sines, round, n + 3) == s3;
  }

  lemma NoSteps(st: State, x: seq<Word>, sines: seq<Word>, round: nat)
    requires |x| == 16 && |sines| == 16
    ensures RoundSteps(st, x, sines, round, 0) == st
  {
  }

  method Round1(st: State, x: seq<Word>) returns (r: State)
    requires |x| == 16
    ensures r == RoundSteps(st, x, SINES1, 0, 16)
  {
    hide Step, RoundSteps;
    var a, b, c, d := st.a, st.b, st.c, st.d;
    a := Step(0, a, b, c, d, x[0], 0xd76aa478, 7);
    d := Step(0, d, a, b, c, x[1], 0xe8c7b756, 12);
    c := Step(0, c, d, a, b, x[2], 0x242070db, 17);
    b := Step(0, b, c, d, a, x[3], 0xc1bdceee, 22);
    NoSteps(st, x, SINES1, 0);
    FourSteps(st, x, SINES1, 0, 0);
    assert State(a, b, c, d) == RoundSteps(st, x, SINES1, 0, 4);
    a := Step(0, a, b, c, d, x[4], 0xf57c0faf, 7);
    d := Step(0, d, a, b, c, x[5], 0x4787c62a, 12);
    c := Step(0, c, d, a, b, x[6], 0xa8304613, 17);
    b := Step(0, b, c, d, a, x[7], 0xfd469501, 22);
    FourSteps(st, x, SINES1, 0, 4);
    assert State(a, b, c, d) == RoundSteps(st, x, SINES1, 0, 8);
    a := Step(0, a, b, c, d, x[8], 0x698098d8, 7);
    d := Step(0, d, a, b, c, x[9], 0x8b44f7af, 12);
    c := Step(0, c, d, a, b, x[10], 0xffff5bb1, 17);
    b := Step(0, b, c, d, a, x[11], 0x895cd7be, 22);
    FourSteps(st, x, SINES1, 0, 8);
    assert State(a, b, c, d) == RoundSteps(st, x, SINES1, 0, 12);
    a := Step(0, a, b, c, d, x[12], 0x6b901122, 7);
    d := Step(0, d, a, b, c, x[13], 0xfd987193, 12);
    c := Step(0, c, d, a, b, x[14], 0xa679438e, 17);
    b := Step(0, b, c, d, a, x[15], 0x49b40821, 22);
    FourSteps(st, x, SINES1, 0, 12);
    assert State(a, b, c, d) == RoundSteps(st, x, SINES1, 0, 16);
    r := State(a, b, c, d);
  }

  method Round2(st: State, x: seq<Word>) returns (r: State)
    requires |x| == 16
    ensures r == RoundSteps(st, x, SINES2, 1, 16)
  {
    hide Step, RoundSteps;
    var a, b, c, d := st.a, st.b, st.c, st.d;
    a := Step(1, a, b, c, d, x[1], 0xf61e2562, 5);
    d := Step(1, d, a, b, c, x[6], 0xc040b340, 9);
    c := Step(1, c, d, a, b, x[11], 0x265e5a51, 14);
    b := Step(1, b, c, d, a, x[0], 0xe9b6c7aa, 20);
    NoSteps(st, x, SINES2, 1);
    FourSteps(st, x, SINES2, 1, 0);
    assert State(a, b, c, d) == RoundSteps(st, x, SINES2, 1, 4);
    a := Step(1, a, b, c, d, x[5], 0xd62f105d, 5);
    d := Step(1, d, a, b, c, x[10], 0x02441453, 9);
    c := Step(1, c, d, a, b, x[15], 0xd8a1e681, 14);
    b := Step(1, b, c, d, a, x[4], 0xe7d3fbc8, 20);
    FourSteps(st, x, SINES2, 1, 4);
    assert State(a, b, c, d) == RoundSteps(st, x, SINES2, 1, 8);
    a := Step(1, a, b, c, d, x[9], 0x21e1cde6, 5);
    d := Step(1, d, a, b, c, x[14], 0xc33707d6, 9);
    c := Step(1, c, d, a, b, x[3], 0xf4d50d87, 14);
    b := Step(1, b, c, d, a, x[8], 0x455a14ed, 20);
    FourSteps(st, x, SINES2, 1, 8);
    assert State(a, b, c, d) == RoundSteps(st, x, SINES2, 1, 12);
    a := Step(1, a, b, c, d, x[13], 0xa9e3e905, 5);
    d := Step(1, d, a, b, c, x[2], 0xfcefa3f8, 9);
    c := Step(1, c, d, a, b, x[7], 0x676f02d9, 14);
    b := Step(1, b, c, d, a, x[12], 0x8d2a4c8a, 20);
    FourSteps(st, x, SINES2, 1, 12);
    assert State(a, b, c, d) == RoundSteps(st, x, SINES2, 1, 16);
    r := State(a, b, c, d);
  }

  method Round3(st: State, x: seq<Word>) returns (r: State)
    requires |x| == 16
    ensures r == RoundSteps(st, x, SINES3, 2, 16)
  {
    hide Step, RoundSteps;
    var a, b, c, d := st.a, st.b, st.c, st.d;
    a := Step(2, a, b, c, d, x[5], 0xfffa3942, 4);
    d := Step(2, d, a, b, c, x[8], 0x8771f681, 11);
    c := Step(2, c, d, a, b, x[11], 0x6d9d6122, 16);
    b := Step(2, b, c, d, a, x[14], 0xfde5380c, 23);
    NoSteps(st, x, SINES3, 2);
    FourSteps(st, x, SINES3, 2, 0);
    assert State(a, b, c, d) == RoundSteps(st, x, SINES3, 2, 4);
    a := Step(2, a, b, c, d, x[1], 0xa4beea44, 4);
    d := Step(2, d, a, b, c, x[4], 0x4bdecfa9, 11);
    c := Step(2, c, d, a, b, x[7], 0xf6bb4b60, 16);
    b := Step(2, b, c, d, a, x[10], 0xbebfbc70, 23);
    FourSteps(st, x, SINES3, 2, 4);
    assert State(a, b, c, d) == RoundSteps(st, x, SINES3, 2, 8);
    a := Step(2, a, b, c, d, x[13], 0x289b7ec6, 4);
    d := Step(2, d, a, b, c, x[0], 0xeaa127fa, 11);
    c := Step(2, c, d, a, b, x[3], 0xd4ef3085, 16);
    b := Step(2, b, c, d, a, x[6], 0x04881d05, 23);
    FourSteps(st, x, SINES3, 2, 8);
    assert State(a, b, c, d) == RoundSteps(st, x, SINES3, 2, 12);
    a := Step(2, a, b, c, d, x[9], 0xd9d4d039, 4);
    d := Step(2, d, a, b, c, x[12], 0xe6db99e5, 11);
    c := Step(2, c, d, a, b, x[15], 0x1fa27cf8, 16);
    b := Step(2, b, c, d, a, x[2], 0xc4ac5665, 23);
    FourSteps(st, x, SINES3, 2, 12);
    assert State(a, b, c, d) == RoundSteps(st, x, SINES3, 2, 16);
    r := State(a, b, c, d);
  }

  method Round4(st: State, x: seq<Word>) returns (r: State)
    requires |x| == 16
    ensures r == RoundSteps(st, x, SINES4, 3, 16)
  {
    hide Step, RoundSteps;
    var a, b, c, d := st.a, st.b, st.c, st.d;
    a := Step(3, a, b, c, d, x[0], 0xf4292244, 6);
    d := Step(3, d, a, b, c, x[7], 0x432aff97, 10);
    c := Step(3, c, d, a, b, x[14], 0xab9423a7, 15);
    b := Step(3, b, c, d, a, x[5], 0xfc93a039, 21);
    NoSteps(st, x, SINES4, 3);
    FourSteps(st, x, SINES4, 3, 0);
    assert State(a, b, c, d) == RoundSteps(st, x, SINES4, 3, 4);
    a := Step(3, a, b, c, d, x[12], 0x655b59c3, 6);
    d := Step(3, d, a, b, c, x[3], 0x8f0ccc92, 10);
    c := Step(3, c, d, a, b, x[10], 0xffeff47d, 15);
    b := Step(3, b, c, d, a, x[1], 0x85845dd1, 21);
    FourSteps(st, x, SINES4, 3, 4);
    assert State(a, b, c, d) == RoundSteps(st, x, SINES4, 3, 8);
    a := Step(3, a, b, c, d, x[8], 0x6fa87e4f, 6);
    d := Step(3, d, a, b, c, x[15], 0xfe2ce6e0, 10);
    c := Step(3, c, d, a, b, x[6], 0xa3014314, 15);
    b := Step(3, b, c, d, a, x[13], 0x4e0811a1, 21);
    FourSteps(st, x, SINES4, 3, 8);
    assert State(a, b, c, d) == RoundSteps(st, x, SINES4, 3, 12);
    a := Step(3, a, b, c, d, x[4], 0xf7537e82, 6);
    d := Step(3, d, a, b, c, x[11], 0xbd3af235, 10);
    c := Step(3, c, d, a, b, x[2], 0x2ad7d2bb, 15);
    b := Step(3, b, c, d, a, x[9], 0xeb86d391, 21);
    FourSteps(st, x, SINES4, 3, 12);
    assert State(a, b, c, d) == RoundSteps(st, x, SINES4, 3, 16);
    r := State(a, b, c, d);
  }

  function AddWord(u: Word, v: Word): Word {
    (u + v) % 0x1_0000_0000
  }

  /** The 64 steps of section 3.4 of RFC 1321 on one block of sixteen words. */
  function Transform(st: State, x: seq<Word>): State
    requires |x| == 16
  {
    var r1 := RoundSteps(st, x, SINES1, 0, 16);
    var r2 := RoundSteps(r1, x, SINES2, 1, 16);
    var r3 := RoundSteps(r2, x, SINES3, 2, 16);
    var r4 := RoundSteps(r3, x, SINES4, 3, 16);
    State(AddWord(st.a, r4.a), AddWord(st.b, r4.b), AddWord(st.c, r4.c), AddWord(st.d, r4.d))
  }

  function AsState(buf: seq<Word>): State
    requires |buf| == 4
  {
    State(buf[0], buf[1], buf[2], buf[3])
  }

  method MD5Transform(buf: array<Word>, x: seq<Word>)
    requires buf.Length == 4 && |x| == 16
    modifies buf
    ensures AsState(buf[..]) == Transform(old(AsState(buf[..])), x)
  {
    hide RoundSteps;
    var r := Round1(AsState(buf[..]), x);
    r := Round2(r, x);
    r := Round3(r, x);
    r := Round4(r, x);
    buf[0] := AddWord(buf[0], r.a);
    buf[1] := AddWord(buf[1], r.b);
    buf[2] := AddWord(buf[2], r.c);
    buf[3] := AddWord(buf[3], r.d);
  }
}
