/**
  Message ids as bit strings (uid_db.c: bit_ofs, bit_mask, bit_set, ffs and
  find_first_diff_bit).  Bit i of an id is bit i % 8, counted from the least
  significant, of byte i / 8; bits past the end read as 0.
 */
module IdBits {

  type Byte = bv8
  type Id = seq<Byte>

  /** What the store demands of an id: a non-empty C string. */
  predicate ValidId(id: Id) {
    id != [] && 0 !in id
  }

  /** A C string: the empty one stands for the key of the NULL edge. */
  predicate CString(id: Id) {
    0 !in id
  }

  /** bit_mask: the low three bits of the index choose the bit in its byte. */
  function BitMask(bitNdx: nat): (m: Byte)
    ensures m != 0
  {
    var k := bitNdx % 8;
    if k == 0 then 1 else if k == 1 then 2 else if k == 2 then 4 else if k == 3 then 8
    else if k == 4 then 16 else if k == 5 then 32 else if k == 6 then 64 else 128
  }

  /** The byte a walker tests at offset `ofs`. */
  function ByteAt(id: Id, ofs: nat): Byte {
    if ofs < |id| then id[ofs] else 0
  }

  predicate BitAt(id: Id, bitNdx: nat) {
    ByteAt(id, bitNdx / 8) & BitMask(bitNdx) != 0
  }

  ghost predicate AgreeBelow(x: Id, y: Id, bound: nat) {
    forall i: nat | i < bound :: BitAt(x, i) == BitAt(y, i)
  }

  /** `d` is the index of the first bit in which the two ids differ. */
  ghost predicate FirstDiff(x: Id, y: Id, d: nat) {
    AgreeBelow(x, y, d) && BitAt(x, d) != BitAt(y, d)
  }

  /** ffs(v) - 1 on a byte. */
  function FirstSetBit(v: Byte): (k: nat)
    requires v != 0
    ensures k < 8 && v & BitMask(k) != 0
    ensures forall j: nat | j < k :: v & BitMask(j) == 0
  {
    if v & 1 != 0 then 0 else if v & 2 != 0 then 1 else if v & 4 != 0 then 2 else if v & 8 != 0 then 3
    else if v & 16 != 0 then 4 else if v & 32 != 0 then 5 else if v & 64 != 0 then 6
    else NonZeroTopBit(v); 7
  }

  lemma NonZeroTopBit(v: Byte)
    requires v != 0
    requires v & 1 == 0 && v & 2 == 0 && v & 4 == 0 && v & 8 == 0 && v & 16 == 0 && v & 32 == 0 && v & 64 == 0
    ensures v & 128 != 0
  {
  }

  lemma XorBit(a: Byte, b: Byte, k: nat)
    ensures ((a ^ b) & BitMask(k) != 0) <==> ((a & BitMask(k) != 0) != (b & BitMask(k) != 0))
  {
    var r := k % 8;
    if r == 0 { XorMask(a, b, 1); } else if r == 1 { XorMask(a, b, 2); }
    else if r == 2 { XorMask(a, b, 4); } else if r == 3 { XorMask(a, b, 8); }
    else if r == 4 { XorMask(a, b, 16); } else if r == 5 { XorMask(a, b, 32); }
    else if r == 6 { XorMask(a, b, 64); } else { XorMask(a, b, 128); }
  }

  lemma XorMask(a: Byte, b: Byte, m: Byte)
    requires m == 1 || m == 2 || m == 4 || m == 8 || m == 16 || m == 32 || m == 64 || m == 128
    ensures ((a ^ b) & m != 0) <==> ((a & m != 0) != (b & m != 0))
  {
  }

  /** If two ids agree on the bytes before `ofs` and their byte `ofs` differs by `v`,
      the first set bit of `v` locates their first differing bit. */
  lemma DiffInByte(x: Id, y: Id, ofs: nat, v: Byte)
    requires forall i: nat | i < ofs :: ByteAt(x, i) == ByteAt(y, i)
    requires v == ByteAt(x, ofs) ^ ByteAt(y, ofs) && v != 0
    ensures FirstDiff(x, y, FirstSetBit(v) + ofs * 8)
  {
    var d := FirstSetBit(v) + ofs * 8;
    forall i: nat | i <= d
      ensures BitAt(x, i) == BitAt(y, i) <==> i != d
    {
      if i / 8 == ofs {
        BitInByte(x, y, ofs, i - ofs * 8);
      }
    }
  }

  lemma BitOfByte(x: Id, ofs: nat, j: nat)
    requires j < 8
    ensures BitAt(x, ofs * 8 + j) <==> ByteAt(x, ofs) & BitMask(j) != 0
  {
    var i := ofs * 8 + j;
    assert i % 8 == j && i / 8 == ofs;
    assert BitMask(i) == BitMask(j);
  }

  lemma BitInByte(x: Id, y: Id, ofs: nat, j: nat)
    requires j < 8
    ensures BitAt(x, ofs * 8 + j) != BitAt(y, ofs * 8 + j) <==> (ByteAt(x, ofs) ^ ByteAt(y, ofs)) & BitMask(j) != 0
  {
    hide BitMask, ByteAt, BitAt;
    BitOfByte(x, ofs, j);
    BitOfByte(y, ofs, j);
    XorBit(ByteAt(x, ofs), ByteAt(y, ofs), j);
  }

  /** find_first_diff_bit: -1 exactly for equal ids, else the first differing bit. */
  method FindFirstDiffBit(r0: Id, r1: Id) returns (bitNdx: int)
    requires ValidId(r0) && ValidId(r1)
    ensures bitNdx == -1 <==> r0 == r1
    ensures bitNdx != -1 ==> bitNdx >= 0 && FirstDiff(r0, r1, bitNdx)
  {
    var max := |r0|;
    var longId := r1;
    if max > |r1| {
      max := |r1|;
      longId := r0;
    }
    var ofs := 0;
    var v := r0[0] ^ r1[0];
    while v == 0 && ofs + 1 < max
      invariant ofs < max
      invariant v == r0[ofs] ^ r1[ofs]
      invariant forall i | 0 <= i < ofs :: r0[i] == r1[i]
    {
      XorZero(r0[ofs], r1[ofs]);
      ofs := ofs + 1;
      v := r0[ofs] ^ r1[ofs];
    }
    if v == 0 {
      XorZero(r0[ofs], r1[ofs]);
      ofs := ofs + 1;
      if |r0| == |r1| {
        return -1;
      }
      v := longId[ofs];
      XorZero(v, 0);
    }
    DiffInByte(r0, r1, ofs, v);
    bitNdx := FirstSetBit(v) + ofs * 8;
  }

  lemma XorZero(a: Byte, b: Byte)
    ensures a ^ b == 0 <==> a == b
    ensures b == 0 ==> a ^ b == a && b ^ a == a
  {
  }

  /** get_standalone_node's choice: the first set bit of the first byte is where
      an id first differs from the all-zero key. */
  lemma StandaloneBit(id: Id)
    requires ValidId(id)
    ensures id[0] != 0 && FirstDiff([], id, FirstSetBit(id[0]))
  {
    XorZero(id[0], 0);
    DiffInByte([], id, 0, id[0]);
  }
}
