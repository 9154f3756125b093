/**
  The streaming form of MD5 in md5c.c, and HMAC over it in cram.c.
 */
module Md5Context {
  import opened Md5Block
  import opened Md5
  import opened Octets

  lemma JoinPieces(m: Bytes, b: Bytes, k: nat, n: nat)
    requires k + n <= |b|
    ensures m + b[..k] + b[k..k + n] == m + b[..k + n]
    ensures k + n == |b| ==> m + b[..k] + b[k..] == m + b
  {
  }

  class MD5Context {
    const buf: array<Word>
    var bits0: Word
    var bits1: Word
    const input: array<Byte>

    /** All that was fed to the context since MD5Init. */
    ghost var absorbed: Bytes

    ghost predicate Shaped() {
      buf.Length == 4 && input.Length == 64
    }

    /** The chaining state and the waiting bytes are those of message `m`. */
    ghost predicate Holds(m: Bytes)
      requires Shaped()
      reads buf, input
    {
      AsState(buf[..]) == Chain(INITIAL, m) && input[..|m| % 64] == Rest(m)
    }

    ghost predicate Valid()
      reads this, buf, input
    {
      Shaped() && Holds(absorbed) && bits0 == LowBits(|absorbed|) && bits1 == HighBits(|absorbed|)
    }

    constructor ()
      ensures Shaped() && fresh(buf) && fresh(input)
    {
      buf := new Word[4](_ => 0);
      input := new Byte[64](_ => 0);
    }

    method SetInitial()
      requires Shaped()
      modifies buf
      ensures Holds([])
    {
      hide Chain;
      NoBlock(INITIAL);
      buf[0] := 0x67452301;
      buf[1] := 0xefcdab89;
      buf[2] := 0x98badcfe;
      buf[3] := 0x10325476;
    }

    method MD5Init()
      requires Shaped()
      modifies this, buf
      ensures Valid() && absorbed == []
    {
      hide Chain, LowBits, HighBits, AsState, Rest;
      SetInitial();
      bits0, bits1 := 0, 0;
      absorbed := [];
      NoBits();
    }

    /** memmove(in + offset, b, |b|) */
    method MoveIn(offset: nat, b: Bytes)
      requires Shaped() && offset + |b| <= 64
      modifies input
      ensures input[..offset + |b|] == old(input[..offset]) + b
      ensures input[offset + |b|..] == old(input[offset + |b|..])
    {
      forall i | 0 <= i < |b| {
        input[offset + i] := b[i];
      }
    }

    /** A full `in` is one more block. */
    method TakeBlock(ghost m: Bytes, ghost c: Bytes)
      requires Shaped() && |m| % 64 + |c| == 64
      requires AsState(buf[..]) == Chain(INITIAL, m) && input[..] == Rest(m) + c
      modifies buf
      ensures Holds(m + c) && |m + c| % 64 == 0
    {
      hide Transform;
      MD5Transform(buf, WordsOf(input[..]));
      FillsBlock(INITIAL, m, c);
      OneBlock(Chain(INITIAL, m), Rest(m) + c);
    }

    method UpdateCount(len: nat)
      requires len < 0x1_0000_0000
      requires bits0 == LowBits(|absorbed|) && bits1 == HighBits(|absorbed|)
      modifies `bits0, `bits1
      ensures bits0 == LowBits(|absorbed| + len) && bits1 == HighBits(|absorbed| + len)
    {
      CountAdds(|absorbed|, len);
      var t := bits0;
      bits0 := AddWord(t, 8 * len % 0x1_0000_0000);
      if bits0 < t {
        bits1 := AddWord(bits1, 1);
      }
      bits1 := AddWord(bits1, len / 0x2000_0000);
    }

    /** Bytes after a block begun earlier: they complete it, or wait with it if they are too few. */
    method Leading(t: nat, b: Bytes, ghost m: Bytes) returns (k: nat)
      requires Shaped() && Holds(m) && t == |m| % 64 > 0
      modifies buf, input
      ensures k <= |b| && Holds(m + b[..k])
      ensures if |b| < 64 - t then k == |b| else |m + b[..k]| % 64 == 0
    {
      hide Chain, Rest, AsState;
      if |b| < 64 - t {
        MoveIn(t, b);
        StaysShort(INITIAL, m, b);
        assert b[..|b|] == b && |m + b| % 64 == t + |b|;
        return |b|;
      }
      k := 64 - t;
      MoveIn(t, b[..k]);
      TakeBlock(m, b[..k]);
    }

    /** The data in 64-byte blocks. */
    method Blocks(b: Bytes, from: nat, ghost m: Bytes) returns (k: nat)
      requires Shaped() && from <= |b| && |m + b[..from]| % 64 == 0 && Holds(m + b[..from])
      modifies buf, input
      ensures k <= |b| && |b| - k < 64 && |m + b[..k]| % 64 == 0 && Holds(m + b[..k])
    {
      hide Chain, Rest, AsState;
      k := from;
      while |b| - k >= 64
        invariant k <= |b| && |m + b[..k]| % 64 == 0 && Holds(m + b[..k])
      {
        MoveIn(0, b[k..k + 64]);
        TakeBlock(m + b[..k], b[k..k + 64]);
        JoinPieces(m, b, k, 64);
        k := k + 64;
      }
    }

    method MD5Update(b: Bytes)
      requires Valid() && |b| < 0x1_0000_0000
      modifies this, buf, input
      ensures Valid() && absorbed == old(absorbed) + b
    {
      hide Chain, LowBits, HighBits, Rest, AsState;
      var t := bits0 / 8 % 64;
      CountLowBits(|absorbed|);
      UpdateCount(|b|);
      ghost var m := absorbed;
      absorbed := absorbed + b;
      assert m + b[..0] == m && b[..|b|] == b;
      var k := 0;
      if t != 0 {
        k := Leading(t, b, m);
        if |b| < 64 - t {
          return;
        }
      }
      k := Blocks(b, k, m);
      MoveIn(0, b[k..]);
      StaysShort(INITIAL, m + b[..k], b[k..]);
      JoinPieces(m, b, k, |b| - k);
    }

    /** memset(in + from, 0, n) */
    method ZeroIn(from: nat, n: nat)
      requires Shaped() && from + n <= 64
      modifies input
      ensures input[..from + n] == old(input[..from]) + Zeros(n)
    {
      forall i | 0 <= i < n {
        input[from + i] := 0;
      }
    }

    /** The block that ends in the bit count. */
    method LastBlock(ghost m: Bytes, ghost c: Bytes, ghost len: nat)
      requires Shaped() && |m| % 64 + |c| == 56
      requires AsState(buf[..]) == Chain(INITIAL, m) && input[..56] == Rest(m) + c
      requires bits0 == LowBits(len) && bits1 == HighBits(len)
      modifies buf
      ensures AsState(buf[..]) == Chain(INITIAL, m + (c + LengthBytes(len)))
    {
      hide Transform, Chain;
      MD5Transform(buf, WordsOf(input[..56]) + [bits0, bits1]);
      WordsWithLength(Rest(m) + c, len);
      assert Rest(m) + c + LengthBytes(len) == Rest(m) + (c + LengthBytes(len));
      FillsBlock(INITIAL, m, c + LengthBytes(len));
      OneBlock(Chain(INITIAL, m), Rest(m) + (c + LengthBytes(len)));
    }

    /** All the padding and the count; the chaining state is then that of the padded message. */
    method PadAndCount()
      requires Valid()
      modifies buf, input
      ensures AsState(buf[..]) == Chain(INITIAL, absorbed + Padding(|absorbed|))
    {
      hide Chain, LowBits, HighBits, Rest, AsState;
      ghost var m := absorbed;
      var count := bits0 / 8 % 64;
      CountLowBits(|m|);
      MoveIn(count, [0x80]);
      var p := count + 1;
      count := 64 - 1 - count;
      if count < 8 {
        ZeroIn(p, count);
        TakeBlock(m, [0x80] + Zeros(count));
        ZeroIn(0, 56);
        LastBlock(m + ([0x80] + Zeros(count)), Zeros(56), |m|);
        LongPadding(m, count);
      } else {
        ZeroIn(p, count - 8);
        LastBlock(m, [0x80] + Zeros(count - 8), |m|);
        ShortPadding(m, count);
      }
    }

    method MD5Final(digest: array<Byte>)
      requires Valid() && digest.Length == 16 && digest != input
      modifies this, buf, input, digest
      ensures digest[..] == Digest(old(absorbed))
      ensures Cleared()
    {
      hide Chain, LowBits, HighBits;
      PadAndCount();
      var b := StateBytes(AsState(buf[..]));
      forall i | 0 <= i < 16 {
        digest[i] := b[i];
      }
      forall i | 0 <= i < 4 {
        buf[i] := 0;
      }
      forall i | 0 <= i < 64 {
        input[i] := 0;
      }
      bits0, bits1 := 0, 0;
    }

    /** The context holds nothing of the message any more. */
    ghost predicate Cleared()
      reads this, buf, input
    {
      Shaped() && bits0 == 0 && bits1 == 0 && (forall i | 0 <= i < 4 :: buf[i] == 0) &&
        forall i | 0 <= i < 64 :: input[i] == 0
    }
  }

  lemma WordsWithLength(b: Bytes, len: nat)
    requires |b| == 56
    ensures WordsOf(b + LengthBytes(len)) == WordsOf(b) + [LowBits(len), HighBits(len)]
  {
    WordsOfConcat(b, LengthBytes(len));
    TwoWords(LowBits(len), HighBits(len));
  }

  lemma LongPadding(m: Bytes, count: nat)
    requires count == 63 - |m| % 64 && count < 8
    ensures m + ([0x80] + Zeros(count)) + (Zeros(56) + LengthBytes(|m|)) == m + Padding(|m|)
    ensures (|m| + 1 + count) % 64 == 0
  {
    hide LengthBytes;
    ZerosJoin(count, 56);
    assert ZerosNeeded(|m|) == count + 56;
    Regroup(m, [0x80], Zeros(count), Zeros(56), LengthBytes(|m|));
  }

  lemma ZerosJoin(n: nat, k: nat)
    ensures Zeros(n) + Zeros(k) == Zeros(n + k)
  {
  }

  lemma Regroup(m: Bytes, a: Bytes, b: Bytes, c: Bytes, d: Bytes)
    ensures m + (a + b) + (c + d) == m + (a + (b + c) + d)
  {
  }

  lemma ShortPadding(m: Bytes, count: nat)
    requires count == 63 - |m| % 64 && count >= 8
    ensures m + ([0x80] + Zeros(count - 8) + LengthBytes(|m|)) == m + Padding(|m|)
  {
  }

  // ----- Any split of a message -----

  function Joined(chunks: seq<Bytes>): Bytes {
    if chunks == [] then [] else Joined(chunks[..|chunks| - 1]) + chunks[|chunks| - 1]
  }

  /** Feeding a message in pieces, however it is cut, gives the digest of the whole. */
  method DigestOfChunks(chunks: seq<Bytes>) returns (digest: array<Byte>)
    requires forall c <- chunks :: |c| < 0x1_0000_0000
    ensures fresh(digest) && digest[..] == Digest(Joined(chunks))
  {
    hide Digest;
    var ctx := new MD5Context();
    digest := new Byte[16](_ => 0);
    ctx.MD5Init();
    for i := 0 to |chunks|
      invariant ctx.Valid() && ctx.absorbed == Joined(chunks[..i])
    {
      ctx.MD5Update(chunks[i]);
      assert chunks[..i + 1][..i] == chunks[..i];
    }
    assert chunks[..|chunks|] == chunks;
    ctx.MD5Final(digest);
  }
}
