/**
  smbhash on a published vector, byte by byte; for this the eighth bit of every key byte
  must not matter.
 */
module SmbVector {
  import opened IdBits
  import opened DesTables
  import opened Des
  import opened DesVector
  import opened SmbDes

  /** perm1 leaves out every eighth bit. */
  ghost predicate SkipsParity(p: seq<nat>) {
    forall i | 0 <= i < |p| :: p[i] % 8 != 0
  }

  lemma SourceSkipsParity()
    ensures SkipsParity(PERM1)
  {
  }

  /** Keys that differ in parity bits only give the same cipher. */
  lemma ParityIgnored(t: Tables, x: Bits, key: Bits, other: Bits, forw: bool)
    requires Usable(t) && SkipsParity(t.perm1) && |x| == |key| == |other| == 64
    requires forall i | 0 <= i < 64 && i % 8 != 7 :: key[i] == other[i]
    ensures Permute(key, t.perm1) == Permute(other, t.perm1)
    ensures Cipher(t, x, key, forw) == Cipher(t, x, other, forw)
  {
    hide Crypt, Turned;
    assert Permute(key, t.perm1) == Permute(other, t.perm1);
    assert Schedule(t, key) == Schedule(t, other);
  }

  const BLOCK: seq<Byte> := [0x01, 0x23, 0x45, 0x67, 0x89, 0xAB, 0xCD, 0xEF]
  const KEY: seq<Byte> := [0x12, 0x69, 0x5B, 0xC9, 0xB7, 0xB7, 0xF8]
  const ANSWER: seq<Byte> := [0x85, 0xE8, 0x13, 0x54, 0x0F, 0x0A, 0xB4, 0x05]

  /** Byte `j` of a block. */
  lemma BlockByte(s: seq<Byte>, w: bv64, j: nat)
    requires |s| == 8 && j < 8
    requires (s == BLOCK && w == 0x0123456789ABCDEF) || (s == ANSWER && w == 0x85E813540F0AB405)
    ensures forall t: nat | t < 8 :: ByteBit(s[j], t) == On(w, 63 - 8 * j - t)
  {
    Digits(w);
    hide On;
  }

  lemma BlockIs(s: seq<Byte>, w: bv64)
    requires (s == BLOCK && w == 0x0123456789ABCDEF) || (s == ANSWER && w == 0x85E813540F0AB405)
    ensures ToBits(s) == Of(64, w)
  {
    hide On, ByteBit;
    forall i | 0 <= i < 64 ensures ToBits(s)[i] == Of(64, w)[i] {
      BlockByte(s, w, i / 8);
    }
  }

  /** Byte `j` of the key, which holds bits 8 * j to 8 * j + 7 of the 56. */
  lemma KeyByteIs(j: nat)
    requires j < 7
    ensures forall t: nat | t < 8 :: ByteBit(KEY[j], t) == On(0x133457799BBCDFF1, 63 - (8 * j + t) - (8 * j + t) / 7)
  {
    Digits(0x133457799BBCDFF1);
    hide On;
  }

  lemma KeyIs(i: nat)
    requires i < 64 && i % 8 != 7
    ensures KeyBits(KEY)[i] == Of(64, 0x133457799BBCDFF1)[i]
  {
    hide On, ByteBit;
    var b := 7 * (i / 8) + i % 8;
    KeyByteIs(b / 8);
    assert 8 * (b / 8) + b % 8 == b;
    Sevenths(i);
    assert KeyBits(KEY)[i] == ToBits(KEY)[b];
  }

  lemma Sevenths(i: nat)
    requires i % 8 != 7
    ensures (7 * (i / 8) + i % 8) / 7 == i / 8
  {
  }

  /** The published answer, from smbhash. */
  lemma HashAnswer()
    ensures Usable(TABLES)
    ensures Hashed(TABLES, BLOCK, KEY, true) == ANSWER
  {
    SourceTables();
    SourceSkipsParity();
    hide On, ByteBit, Of, ToBits, KeyBits, FromBits, Cipher, Usable, Inverse, SkipsParity;
    KnownAnswer();
    BlockIs(BLOCK, 0x0123456789ABCDEF);
    BlockIs(ANSWER, 0x85E813540F0AB405);
    forall i | 0 <= i < 64 && i % 8 != 7 ensures KeyBits(KEY)[i] == Of(64, 0x133457799BBCDFF1)[i] {
      KeyIs(i);
    }
    ParityIgnored(TABLES, Of(64, 0x0123456789ABCDEF), KeyBits(KEY), Of(64, 0x133457799BBCDFF1), true);
    FromBitsToBits(Of(64, 0x85E813540F0AB405));
    ToBitsInjective(Hashed(TABLES, BLOCK, KEY, true), ANSWER);
  }
}
