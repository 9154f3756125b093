/**
  MD5 as a function of the whole message: section 3 of RFC 1321.
 */
module Md5 {
  import opened Md5Block
  import opened Octets

  /** Section 3.3. */
  const INITIAL := State(0x67452301, 0xefcdab89, 0x98badcfe, 0x10325476)

  // ----- Words are sent low-order byte first -----

  function WordBytes(w: Word): (b: Bytes)
    ensures |b| == 4
  {
    [w % 256, w / 256 % 256, w / 0x1_0000 % 256, w / 0x100_0000]
  }

  /** byteReverse on one word. */
  function WordOf(b: Bytes): (w: Word)
    requires |b| == 4
  {
    var b0: nat, b1: nat, b2: nat, b3: nat := b[0], b[1], b[2], b[3];
    b0 + 256 * b1 + 0x1_0000 * b2 + 0x100_0000 * b3
  }

  function WordsOf(b: Bytes): (x: seq<Word>)
    requires |b| % 4 == 0
    ensures |x| == |b| / 4
    decreases |b|
  {
    if b == [] then [] else [WordOf(b[..4])] + WordsOf(b[4..])
  }

  lemma WordRoundTrip(w: Word)
    ensures WordOf(WordBytes(w)) == w
  {
    DigitsOf(w);
  }

  lemma DigitsOf(w: Word)
    ensures w % 256 + 256 * (w / 256 % 256) + 0x1_0000 * (w / 0x1_0000 % 256) + 0x100_0000 * (w / 0x100_0000) == w
  {
  }

  lemma {:induction false} WordsOfConcat(a: Bytes, b: Bytes)
    requires |a| % 4 == 0 && |b| % 4 == 0
    ensures WordsOf(a + b) == WordsOf(a) + WordsOf(b)
    decreases |a|
  {
    hide WordOf;
    if a == [] {
      assert a + b == b;
    } else {
      assert (a + b)[..4] == a[..4] && (a + b)[4..] == a[4..] + b;
      WordsOfConcat(a[4..], b);
    }
  }

  lemma TwoWords(u: Word, v: Word)
    ensures WordsOf(WordBytes(u) + WordBytes(v)) == [u, v]
  {
    var b := WordBytes(u) + WordBytes(v);
    assert b[..4] == WordBytes(u) && b[4..] == WordBytes(v);
    assert WordBytes(v)[..4] == WordBytes(v) && WordBytes(v)[4..] == [];
    WordRoundTrip(u);
    WordRoundTrip(v);
  }

  // ----- The whole blocks of a message -----

  function Chain(st: State, m: Bytes): State
    decreases |m|
  {
    if |m| < 64 then st else Chain(Transform(st, WordsOf(m[..64])), m[64..])
  }

  lemma {:induction false} ChainConcat(st: State, a: Bytes, b: Bytes)
    requires |a| % 64 == 0
    ensures Chain(st, a + b) == Chain(Chain(st, a), b)
    decreases |a|
  {
    hide Transform;
    if a == [] {
      assert a + b == b;
    } else {
      assert (a + b)[..64] == a[..64] && (a + b)[64..] == a[64..] + b;
      ChainConcat(Transform(st, WordsOf(a[..64])), a[64..], b);
    }
  }

  lemma OneBlock(st: State, b: Bytes)
    requires |b| == 64
    ensures Chain(st, b) == Transform(st, WordsOf(b))
  {
    hide Transform;
    assert b[..64] == b;
  }

  // ----- Padding: sections 3.1 and 3.2 -----

  function Zeros(n: nat): (z: Bytes)
    ensures |z| == n && forall i | 0 <= i < n :: z[i] == 0
  {
    seq(n, i => 0)
  }

  /** The low and the high word of the length in bits, modulo 2^64. */
  function LowBits(len: nat): Word {
    8 * len % 0x1_0000_0000
  }

  function HighBits(len: nat): Word {
    8 * len / 0x1_0000_0000 % 0x1_0000_0000
  }

  /** How many zero bytes bring a message and its 0x80 to 56 bytes modulo 64. */
  function ZerosNeeded(len: nat): (n: nat)
    ensures n < 64 && (len + 1 + n) % 64 == 56
  {
    var t := len % 64;
    if t < 56 then 55 - t else 119 - t
  }

  /** The length in bits, low-order word first. */
  function LengthBytes(len: nat): (b: Bytes)
    ensures |b| == 8
  {
    WordBytes(LowBits(len)) + WordBytes(HighBits(len))
  }

  function Padding(len: nat): Bytes {
    [0x80] + Zeros(ZerosNeeded(len)) + LengthBytes(len)
  }

  lemma PaddedToBlocks(m: Bytes)
    ensures |m + Padding(|m|)| % 64 == 0
  {
    hide Zeros, LengthBytes, ZerosNeeded;
    var n := |m| + 1 + ZerosNeeded(|m|);
    assert |m + Padding(|m|)| == n + 8 && n % 64 == 56;
  }

  /** Section 3.5: the four words, low-order byte first. */
  function StateBytes(st: State): (b: Bytes)
    ensures |b| == 16
  {
    WordBytes(st.a) + WordBytes(st.b) + WordBytes(st.c) + WordBytes(st.d)
  }

  function Digest(m: Bytes): (d: Bytes)
    ensures |d| == 16
  {
    StateBytes(Chain(INITIAL, m + Padding(|m|)))
  }

  // ----- Messages in pieces -----

  /** The part of the message after its last whole block. */
  function Rest(m: Bytes): (r: Bytes)
    ensures |r| == |m| % 64
  {
    m[|m| - |m| % 64..]
  }

  lemma ChainIgnoresRest(st: State, m: Bytes)
    ensures Chain(st, m) == Chain(st, m[..|m| - |m| % 64])
  {
    hide Transform;
    var whole := m[..|m| - |m| % 64];
    assert whole + Rest(m) == m;
    ChainConcat(st, whole, Rest(m));
  }

  /** A piece that does not fill the block waits. */
  lemma StaysShort(st: State, m: Bytes, c: Bytes)
    requires |m| % 64 + |c| < 64
    ensures Chain(st, m + c) == Chain(st, m) && Rest(m + c) == Rest(m) + c
  {
    hide Transform;
    ChainIgnoresRest(st, m);
    ChainIgnoresRest(st, m + c);
    assert |m + c| % 64 == |m| % 64 + |c|;
    assert (m + c)[..|m| - |m| % 64] == m[..|m| - |m| % 64];
  }

  /** A piece that fills the block completes it. */
  lemma FillsBlock(st: State, m: Bytes, c: Bytes)
    requires |m| % 64 + |c| == 64
    ensures Chain(st, m + c) == Chain(Chain(st, m), Rest(m) + c) && Rest(m + c) == []
  {
    hide Transform;
    var whole := m[..|m| - |m| % 64];
    ChainIgnoresRest(st, m);
    assert m + c == whole + (Rest(m) + c);
    ChainConcat(st, whole, Rest(m) + c);
  }

  lemma NoBlock(st: State)
    ensures Chain(st, []) == st
  {
  }

  // ----- The 64-bit count kept in two words -----

  lemma NoBits()
    ensures LowBits(0) == 0 && HighBits(0) == 0
  {
  }

  lemma SumOfDigits(t: nat, l: nat)
    ensures
      var b := 0x1_0000_0000;
      var low := (t % b + l % b) % b;
      var carry := if low < t % b then 1 else 0;
      low == (t + l) % b && t / b + l / b + carry == (t + l) / b
  {
  }

  lemma CountAdds(total: nat, len: nat)
    requires len < 0x1_0000_0000
    ensures
      var low := AddWord(LowBits(total), LowBits(len));
      var carry := if low < LowBits(total) then 1 else 0;
      && low == LowBits(total + len)
      && AddWord(AddWord(HighBits(total), carry), len / 0x2000_0000) == HighBits(total + len)
  {
    SumOfDigits(8 * total, 8 * len);
    assert 8 * len / 0x1_0000_0000 == len / 0x2000_0000;
    var low := AddWord(LowBits(total), LowBits(len));
    var carry: nat := if low < LowBits(total) then 1 else 0;
    ModSum(8 * total / 0x1_0000_0000, carry, len / 0x2000_0000);
  }

  lemma ModSum(h: nat, carry: nat, l: nat)
    ensures
      var b := 0x1_0000_0000;
      ((h % b + carry) % b + l) % b == (h + l + carry) % b
  {
  }

  lemma CountLowBits(total: nat)
    ensures LowBits(total) / 8 % 64 == total % 64
  {
    hide LowBits;
    var q, r := total / 0x2000_0000, total % 0x2000_0000;
    LowBitsOf(total, q, r);
    ModMultiple(0x80_0000 * q, r);
  }

  lemma ModMultiple(k: nat, r: nat)
    ensures (64 * k + r) % 64 == r % 64
  {
  }

  lemma LowBitsOf(total: nat, q: nat, r: nat)
    requires total == 0x2000_0000 * q + r && r < 0x2000_0000
    ensures LowBits(total) == 8 * r
  {
    assert 8 * total == 0x1_0000_0000 * q + 8 * r;
  }
}
