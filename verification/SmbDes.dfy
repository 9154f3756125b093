/**
  smbdes.c in its own form: bit arrays filled, shifted and swapped in loops, each loop
  proved to compute the function of the same purpose in Des.
 */
module SmbDes {
  import opened IdBits
  import opened DesTables
  import opened Des

  // ----- Bytes and bits, the most significant bit of a byte first -----

  /** 1 << (7 - i) */
  function Mask(i: nat): Byte
    requires i < 8
  {
    if i == 0 then 0x80 else if i == 1 then 0x40 else if i == 2 then 0x20 else if i == 3 then 0x10
    else if i == 4 then 8 else if i == 5 then 4 else if i == 6 then 2 else 1
  }

  function ToBits(s: seq<Byte>): (b: Bits)
    ensures |b| == 8 * |s|
  {
    seq(8 * |s|, i requires 0 <= i < 8 * |s| => ByteBit(s[i / 8], i % 8))
  }

  predicate ByteBit(v: Byte, t: nat)
    requires t < 8
  {
    v & Mask(t) != 0
  }

  lemma ToBitsAt(s: seq<Byte>, j: nat, t: nat)
    requires j < |s| && t < 8
    ensures ToBits(s)[8 * j + t] == ByteBit(s[j], t)
  {
    assert (8 * j + t) / 8 == j && (8 * j + t) % 8 == t;
  }

  lemma OrBits(v: Byte, m: Byte, n: Byte)
    ensures ((v | m) & n != 0) == (m & n != 0 || v & n != 0)
  {
  }

  lemma OneBit(i: nat, j: nat)
    requires i < 8 && j < 8
    ensures (Mask(i) & Mask(j) != 0) == (i == j)
  {
  }

  lemma MaskBits(v: Byte, i: nat, j: nat)
    requires i < 8 && j < 8
    ensures ByteBit(v | Mask(i), j) == (i == j || ByteBit(v, j))
  {
    OrBits(v, Mask(i), Mask(j));
    OneBit(i, j);
  }

  lemma SameByte(v: Byte, w: Byte)
    requires forall t: nat | t < 8 :: ByteBit(v, t) == ByteBit(w, t)
    ensures v == w
  {
    assert ByteBit(v, 0) == ByteBit(w, 0) && ByteBit(v, 1) == ByteBit(w, 1);
    assert ByteBit(v, 2) == ByteBit(w, 2) && ByteBit(v, 3) == ByteBit(w, 3);
    assert ByteBit(v, 4) == ByteBit(w, 4) && ByteBit(v, 5) == ByteBit(w, 5);
    assert ByteBit(v, 6) == ByteBit(w, 6) && ByteBit(v, 7) == ByteBit(w, 7);
  }

  /** Bytes are known by their bits. */
  lemma ToBitsInjective(s: seq<Byte>, t: seq<Byte>)
    requires ToBits(s) == ToBits(t)
    ensures s == t
  {
    assert |ToBits(s)| == |ToBits(t)|;
    forall k | 0 <= k < |s|
      ensures s[k] == t[k]
    {
      forall i: nat | i < 8
        ensures ByteBit(s[k], i) == ByteBit(t[k], i)
      {
        ToBitsAt(s, k, i);
        ToBitsAt(t, k, i);
      }
      SameByte(s[k], t[k]);
    }
  }

  function BitIn(b: bool, t: nat): Byte
    requires t < 8
  {
    if b then Mask(t) else 0
  }

  function ByteOf(b: Bits): Byte
    requires |b| == 8
  {
    BitIn(b[0], 0) | BitIn(b[1], 1) | BitIn(b[2], 2) | BitIn(b[3], 3)
    | BitIn(b[4], 4) | BitIn(b[5], 5) | BitIn(b[6], 6) | BitIn(b[7], 7)
  }

  /** The eight bytes with the given bits. */
  function FromBits(b: Bits): (s: seq<Byte>)
    requires |b| == 64
    ensures |s| == 8
  {
    seq(8, j requires 0 <= j < 8 => ByteOf(b[8 * j..8 * j + 8]))
  }

  lemma ByteOfBit(b: Bits, t: nat)
    requires |b| == 8 && t < 8
    ensures ByteBit(ByteOf(b), t) == b[t]
  {
    if t == 0 {} else if t == 1 {} else if t == 2 {} else if t == 3 {} else if t == 4 {} else if t == 5 {}
    else if t == 6 {} else {}
  }

  lemma FromBitsToBits(b: Bits)
    requires |b| == 64
    ensures ToBits(FromBits(b)) == b
  {
    hide ByteOf;
    forall i | 0 <= i < 64
      ensures ToBits(FromBits(b))[i] == b[i]
    {
      var j, t := i / 8, i % 8;
      ToBitsAt(FromBits(b), j, t);
      ByteOfBit(b[8 * j..8 * j + 8], t);
    }
  }

  // ----- str_to_key -----

  /** The 56 key bits in order, a 0 after every seventh. */
  function KeyBits(s: seq<Byte>): (b: Bits)
    requires |s| == 7
    ensures |b| == 64
  {
    seq(64, i requires 0 <= i < 64 => KeyBit(s, i / 8, i % 8))
  }

  predicate KeyBit(s: seq<Byte>, j: nat, t: nat)
    requires |s| == 7 && j < 8 && t < 8
  {
    t != 7 && ToBits(s)[7 * j + t]
  }

  /** The seven bits of byte j of the key, from the two bytes of the string they lie in. */
  function KeyByte(hi: Byte, lo: Byte, j: nat): Byte
    requires j < 8
  {
    if j == 0 then lo >> 1
    else if j == 1 then ((hi & 0x01) << 6) | (lo >> 2)
    else if j == 2 then ((hi & 0x03) << 5) | (lo >> 3)
    else if j == 3 then ((hi & 0x07) << 4) | (lo >> 4)
    else if j == 4 then ((hi & 0x0F) << 3) | (lo >> 5)
    else if j == 5 then ((hi & 0x1F) << 2) | (lo >> 6)
    else if j == 6 then ((hi & 0x3F) << 1) | (lo >> 7)
    else hi & 0x7F
  }

  lemma LastKeyBit(v: Byte)
    ensures !ByteBit(v << 1, 7)
  {
  }

  lemma HighKeyBits(hi: Byte, lo: Byte, j: nat, t: nat)
    requires t < j < 8 && t < 7
    ensures ByteBit(KeyByte(hi, lo, j) << 1, t) == ByteBit(hi, 8 - j + t)
  {
    if j == 1 {} else if j == 2 {} else if j == 3 {} else if j == 4 {} else if j == 5 {} else if j == 6 {} else {}
  }

  lemma LowKeyBits(hi: Byte, lo: Byte, j: nat, t: nat)
    requires j <= t < 7
    ensures ByteBit(KeyByte(hi, lo, j) << 1, t) == ByteBit(lo, t - j)
  {
    if j == 0 {} else if j == 1 {} else if j == 2 {} else if j == 3 {} else if j == 4 {} else if j == 5 {} else {}
  }

  /** The byte of the string before bit 7 * j, and the one that holds it. */
  function High(str: seq<Byte>, j: nat): Byte {
    if 0 < j <= |str| then str[j - 1] else 0
  }

  function Low(str: seq<Byte>, j: nat): Byte {
    if j < |str| then str[j] else 0
  }

  method StrToKey(str: seq<Byte>) returns (key: array<Byte>)
    requires |str| == 7
    ensures fresh(key) && key.Length == 8 && ToBits(key[..]) == KeyBits(str)
  {
    key := new Byte[8];
    key[0] := KeyByte(0, str[0], 0);
    key[1] := KeyByte(str[0], str[1], 1);
    key[2] := KeyByte(str[1], str[2], 2);
    key[3] := KeyByte(str[2], str[3], 3);
    key[4] := KeyByte(str[3], str[4], 4);
    key[5] := KeyByte(str[4], str[5], 5);
    key[6] := KeyByte(str[5], str[6], 6);
    key[7] := KeyByte(str[6], 0, 7);
    ghost var k := key[..];
    StoredBytes(str, k);
    ShiftLeft(key);
    KeyBytesHold(str, k, key[..]);
    KeyOfBytes(str, key[..]);
  }

  method ShiftLeft(key: array<Byte>)
    modifies key
    ensures forall j | 0 <= j < key.Length :: key[j] == old(key[j]) << 1
  {
    for i := 0 to key.Length
      invariant forall j | 0 <= j < key.Length :: key[j] == if j < i then old(key[j]) << 1 else old(key[j])
    {
      key[i] := key[i] << 1;
    }
  }

  lemma StoredBytes(str: seq<Byte>, k: seq<Byte>)
    requires |str| == 7
    requires k == [KeyByte(0, str[0], 0), KeyByte(str[0], str[1], 1), KeyByte(str[1], str[2], 2),
      KeyByte(str[2], str[3], 3),
                   KeyByte(str[3], str[4], 4), KeyByte(str[4], str[5], 5), KeyByte(str[5], str[6], 6),
                     KeyByte(str[6], 0, 7)]
    ensures forall j: nat | j < 8 :: k[j] == KeyByte(High(str, j), Low(str, j), j)
  {
    hide KeyByte;
  }

  lemma KeyBytesHold(str: seq<Byte>, sevens: seq<Byte>, key: seq<Byte>)
    requires |sevens| == 8 && forall j: nat | j < 8 :: sevens[j] == KeyByte(High(str, j), Low(str, j), j)
    requires |key| == 8 && forall j | 0 <= j < 8 :: key[j] == sevens[j] << 1
    ensures forall j: nat, t: nat | j < 8 && t < 8 :: KeyBitHolds(str, key[j], j, t)
  {
    forall j: nat, t: nat | j < 8 && t < 8
      ensures KeyBitHolds(str, key[j], j, t)
    {
      KeyByteHolds(str, j, t);
    }
  }

  /** The bytes str_to_key stores, as bits. */
  lemma KeyOfBytes(str: seq<Byte>, key: seq<Byte>)
    requires |str| == 7 && |key| == 8
    requires forall j: nat, t: nat | j < 8 && t < 8 :: KeyBitHolds(str, key[j], j, t)
    ensures ToBits(key) == KeyBits(str)
  {
    forall i | 0 <= i < 64
      ensures ToBits(key)[i] == KeyBits(str)[i]
    {
      assert KeyBitHolds(str, key[i / 8], i / 8, i % 8);
      KeyBitAt(str, key, i / 8, i % 8);
    }
  }

  lemma KeyBitsAt(str: seq<Byte>, j: nat, t: nat)
    requires |str| == 7 && j < 8 && t < 8
    ensures KeyBits(str)[8 * j + t] == KeyBit(str, j, t)
  {
    assert (8 * j + t) / 8 == j && (8 * j + t) % 8 == t;
  }

  lemma HighBitAt(str: seq<Byte>, j: nat, t: nat)
    requires |str| == 7 && t < j < 8 && t < 7
    ensures KeyBits(str)[8 * j + t] == ByteBit(str[j - 1], 8 - j + t)
  {
    KeyBitsAt(str, j, t);
    ToBitsAt(str, j - 1, 8 - j + t);
  }

  lemma LowBitAt(str: seq<Byte>, j: nat, t: nat)
    requires |str| == 7 && j <= t < 7
    ensures KeyBits(str)[8 * j + t] == ByteBit(str[j], t - j)
  {
    KeyBitsAt(str, j, t);
    ToBitsAt(str, j, t - j);
  }

  lemma KeyBitAt(str: seq<Byte>, key: seq<Byte>, j: nat, t: nat)
    requires |str| == 7 && |key| == 8 && j < 8 && t < 8
    requires KeyBitHolds(str, key[j], j, t)
    ensures ToBits(key)[8 * j + t] == KeyBits(str)[8 * j + t]
  {
    ToBitsAt(key, j, t);
    if t == 7 {
      KeyBitsAt(str, j, t);
    } else if t < j {
      HighBitAt(str, j, t);
    } else {
      LowBitAt(str, j, t);
    }
  }

  /** Bit t of byte j of the key is the bit of the string it should be. */
  ghost predicate KeyBitHolds(str: seq<Byte>, v: Byte, j: nat, t: nat)
    requires j < 8 && t < 8
  {
    ByteBit(v, t) == (t != 7 && if t < j then ByteBit(High(str, j), 8 - j + t) else ByteBit(Low(str, j), t - j))
  }

  lemma KeyByteHolds(str: seq<Byte>, j: nat, t: nat)
    requires j < 8 && t < 8
    ensures KeyBitHolds(str, KeyByte(High(str, j), Low(str, j), j) << 1, j, t)
  {
    if t == 7 {
      LastKeyBit(KeyByte(High(str, j), Low(str, j), j));
    } else if t < j {
      HighKeyBits(High(str, j), Low(str, j), j, t);
    } else {
      LowKeyBits(High(str, j), Low(str, j), j, t);
    }
  }

  // ----- The loops on bit arrays -----

  method PermuteInto(out: array<bool>, input: array<bool>, p: seq<nat>)
    requires out.Length == |p| && InRange(p, input.Length) && out != input
    modifies out
    ensures out[..] == Permute(input[..], p)
  {
    for i := 0 to |p|
      invariant forall j | 0 <= j < i :: out[j] == input[p[j] - 1]
    {
      out[i] := input[p[i] - 1];
    }
  }

  method LShift(d: array<bool>, count: nat)
    requires 0 < d.Length <= 64 && count <= d.Length
    modifies d
    ensures d[..] == Rotate(old(d[..]), count)
  {
    var n := d.Length;
    var out := new bool[64];
    for i := 0 to n
      invariant forall j | 0 <= j < i :: out[j] == Rotate(d[..], count)[j]
      modifies out
    {
      out[i] := d[(i + count) % n];
      RotatedAt(d[..], count, i);
    }
    for i := 0 to n
      invariant forall j | 0 <= j < n :: out[j] == Rotate(old(d[..]), count)[j]
      invariant forall j | 0 <= j < i :: d[j] == out[j]
    {
      d[i] := out[i];
    }
  }

  lemma RotatedAt(s: Bits, count: nat, i: nat)
    requires count <= |s| && i < |s|
    ensures Rotate(s, count)[i] == s[(i + count) % |s|]
  {
    if i + count < |s| {
      assert (i + count) % |s| == i + count;
    } else {
      assert (i + count) % |s| == i + count - |s|;
    }
  }

  method Concat(out: array<bool>, a: array<bool>, b: array<bool>)
    requires out.Length == a.Length + b.Length && out != a && out != b
    modifies out
    ensures out[..] == a[..] + b[..]
  {
    for i := 0 to a.Length
      invariant out[..i] == a[..i]
    {
      out[i] := a[i];
    }
    for i := 0 to b.Length
      invariant out[..a.Length + i] == a[..] + b[..i]
    {
      out[a.Length + i] := b[i];
    }
    assert out[..a.Length + b.Length] == out[..] && b[..b.Length] == b[..];
  }

  method ExorInto(out: array<bool>, a: array<bool>, b: Bits)
    requires out.Length == a.Length == |b| && out != a
    modifies out
    ensures out[..] == Xor(a[..], b)
  {
    for i := 0 to out.Length
      invariant forall j | 0 <= j < i :: out[j] == (a[j] != b[j])
    {
      out[i] := a[i] != b[i];
    }
  }

  method Copy(out: array<bool>, input: array<bool>, from: nat)
    requires from + out.Length <= input.Length && out != input
    modifies out
    ensures out[..] == input[from..from + out.Length]
  {
    for i := 0 to out.Length
      invariant out[..i] == input[from..from + i]
    {
      out[i] := input[from + i];
    }
    assert out[..out.Length] == out[..];
  }

  // ----- dohash -----

  method MakeSubkeys(t: Tables, key: array<bool>) returns (ki: seq<Bits>)
    requires Usable(t) && key.Length == 64
    ensures ki == Schedule(t, key[..])
  {
    hide InRange;
    hide Rotate;
    var pk1, c, d, cd, k48 := new bool[56], new bool[28], new bool[28], new bool[56], new bool[48];
    PermuteInto(pk1, key, t.perm1);
    Copy(c, pk1, 0);
    Copy(d, pk1, 28);
    ghost var k := Permute(key[..], t.perm1);
    ki := [];
    for i := 0 to 16
      invariant c[..] == Turned(t, k[..28], i) && d[..] == Turned(t, k[28..], i)
      invariant |ki| == i && forall j | 0 <= j < i :: ki[j] == Subkey(t, key[..], j)
      modifies c, d, cd, k48
    {
      LShift(c, t.sc[i]);
      LShift(d, t.sc[i]);
      Concat(cd, c, d);
      PermuteInto(k48, cd, t.perm2);
      ki := ki + [k48[..]];
    }
  }

  method SplitGroups(erk: array<bool>) returns (b: array2<bool>)
    requires erk.Length == 48
    ensures fresh(b) && b.Length0 == 8 && b.Length1 == 6
    ensures forall g, k | 0 <= g < 8 && 0 <= k < 6 :: b[g, k] == erk[6 * g + k]
  {
    b := new bool[8, 6];
    for j := 0 to 8
      invariant forall g, k | 0 <= g < j && 0 <= k < 6 :: b[g, k] == erk[6 * g + k]
      modifies b
    {
      for k := 0 to 6
        invariant forall g, k | 0 <= g < j && 0 <= k < 6 :: b[g, k] == erk[6 * g + k]
        invariant forall h | 0 <= h < k :: b[j, h] == erk[6 * j + h]
        modifies b
      {
        b[j, k] := erk[j * 6 + k];
      }
    }
  }

  /** The six bits of a group. */
  ghost function GroupOf(b: array2<bool>, j: nat): (g: Bits)
    requires b.Length0 == 8 && b.Length1 == 6 && j < 8
    reads b
    ensures |g| == 6
  {
    [b[j, 0], b[j, 1], b[j, 2], b[j, 3], b[j, 4], b[j, 5]]
  }

  /** One group through its S-box: the four bits that come out replace the first four that went in. */
  method SubstituteGroup(t: Tables, b: array2<bool>, j: nat)
    requires Usable(t) && b.Length0 == 8 && b.Length1 == 6 && j < 8
    modifies b
    ensures forall k: nat | k < 4 :: GroupOf(b, j)[k] == SOut(t, j, old(GroupOf(b, j)), k)
    ensures forall g: nat | g < 8 && g != j :: GroupOf(b, g) == old(GroupOf(b, g))
  {
    var m := 2 * Value(b[j, 0]) + Value(b[j, 5]);
    var n := 8 * Value(b[j, 1]) + 4 * Value(b[j, 2]) + 2 * Value(b[j, 3]) + Value(b[j, 4]);
    var s := t.sbox[j][16 * m + n];
    for k := 0 to 4
      invariant forall g, k | 0 <= g < 8 && 0 <= k < 6 && g != j :: b[g, k] == old(b[g, k])
      invariant forall h: nat | h < k :: b[j, h] == BitOfFour(s, h)
    {
      b[j, k] := BitOfFour(s, k);
    }
    forall g: nat | g < 8 && g != j
      ensures GroupOf(b, g) == old(GroupOf(b, g))
    {
      assert forall k | 0 <= k < 6 :: b[g, k] == old(b[g, k]);
    }
  }

  method JoinGroups(b: array2<bool>) returns (cb: array<bool>)
    requires b.Length0 == 8 && b.Length1 == 6
    ensures fresh(cb) && cb.Length == 32 && forall i | 0 <= i < 32 :: cb[i] == GroupOf(b, i / 4)[i % 4]
  {
    cb := new bool[32];
    for j := 0 to 8
      invariant forall i | 0 <= i < 4 * j :: cb[i] == b[i / 4, i % 4]
      modifies cb
    {
      for k := 0 to 4
        invariant forall i | 0 <= i < 4 * j + k :: cb[i] == b[i / 4, i % 4]
        modifies cb
      {
        cb[j * 4 + k] := b[j, k];
      }
    }
  }

  method Substitute(t: Tables, erk: array<bool>) returns (cb: array<bool>)
    requires Usable(t) && erk.Length == 48
    ensures fresh(cb) && cb.Length == 32 && cb[..] == Substituted(t, erk[..])
  {
    var b := SplitGroups(erk);
    ghost var e := erk[..];
    for j := 0 to 8
      invariant forall g: nat | j <= g < 8 :: GroupOf(b, g) == e[6 * g..6 * g + 6]
      invariant forall g: nat, k: nat | g < j && k < 4 :: GroupOf(b, g)[k] == SOut(t, g, e[6 * g..6 * g + 6], k)
      modifies b
    {
      SubstituteGroup(t, b, j);
    }
    cb := JoinGroups(b);
  }

  method RoundInPlace(t: Tables, l: array<bool>, r: array<bool>, k: Bits)
    requires Usable(t) && l.Length == r.Length == 32 && l != r && |k| == 48
    modifies l, r
    ensures Halves(l[..], r[..]) == Round(t, Halves(old(l[..]), old(r[..])), k)
  {
    var er, erk, pcb, r2 := new bool[48], new bool[48], new bool[32], new bool[32];
    PermuteInto(er, r, t.perm4);
    ExorInto(erk, er, k);
    var cb := Substitute(t, erk);
    PermuteInto(pcb, cb, t.perm5);
    ExorInto(r2, l, pcb[..]);
    Copy(l, r, 0);
    Copy(r, r2, 0);
  }

  /** The sixteen rounds, with the subkeys from either end. */
  method AllRounds(t: Tables, l: array<bool>, r: array<bool>, ki: seq<Bits>, forw: bool)
    requires Usable(t) && l.Length == r.Length == 32 && l != r && |ki| == 16 && Subkeys(ki)
    modifies l, r
    ensures Halves(l[..], r[..]) ==
      Rounds(t, Halves(old(l[..]), old(r[..])), if forw then ki else Reversed(ki))
  {
    ghost var h := Halves(l[..], r[..]);
    ghost var ks := if forw then ki else Reversed(ki);
    for i := 0 to 16
      invariant Halves(l[..], r[..]) == Rounds(t, h, ks[..i])
    {
      RoundInPlace(t, l, r, ki[if forw then i else 15 - i]);
      OneMoreRound(t, h, ks, i);
    }
    assert ks[..16] == ks;
  }

  method DoHash(t: Tables, out: array<bool>, input: array<bool>, key: array<bool>, forw: bool)
    requires Usable(t) && out.Length == input.Length == key.Length == 64 && out != input
    modifies out
    ensures out[..] == Cipher(t, old(input[..]), old(key[..]), forw)
  {
    var ki := MakeSubkeys(t, key);
    var pd1, l, r, rl := new bool[64], new bool[32], new bool[32], new bool[64];
    PermuteInto(pd1, input, t.perm3);
    ghost var b := pd1[..];
    Copy(l, pd1, 0);
    Copy(r, pd1, 32);
    ghost var h := Halves(l[..], r[..]);
    assert h == Halves(b[..32], b[32..]);
    AllRounds(t, l, r, ki, forw);
    Concat(rl, r, l);
    PermuteInto(out, rl, t.perm6);
  }

  // ----- smbhash and its two directions -----

  /** What smbhash makes of the eight bytes `x` under the seven bytes `key`. */
  ghost function Hashed(t: Tables, x: seq<Byte>, key: seq<Byte>, forw: bool): (y: seq<Byte>)
    requires Usable(t) && |x| == 8 && |key| == 7
    ensures |y| == 8
  {
    FromBits(Cipher(t, ToBits(x), KeyBits(key), forw))
  }

  method Unpack(s: seq<Byte>) returns (b: array<bool>)
    requires |s| == 8
    ensures fresh(b) && b.Length == 64 && b[..] == ToBits(s)
  {
    b := new bool[64];
    for i := 0 to 64
      invariant forall j | 0 <= j < i :: b[j] == ByteBit(s[j / 8], j % 8)
    {
      b[i] := s[i / 8] & Mask(i % 8) != 0;
    }
    assert forall j | 0 <= j < 64 :: b[j] == ToBits(s)[j];
  }

  /** Bits `from` on of `b` are not yet set in the eight bytes. */
  ghost predicate Packed(v: seq<Byte>, b: Bits, from: nat)
    requires |v| == 8 && |b| == 64
  {
    forall j: nat, t: nat | j < 8 && t < 8 :: ByteBit(v[j], t) == (8 * j + t < from && b[8 * j + t])
  }

  lemma NothingPacked(v: seq<Byte>, b: Bits)
    requires |b| == 64 && |v| == 8 && forall j | 0 <= j < 8 :: v[j] == 0
    ensures Packed(v, b, 0)
  {
    forall j: nat, t: nat | j < 8 && t < 8
      ensures !ByteBit(v[j], t)
    {
      assert v[j] == 0;
    }
  }

  lemma PackOne(v: seq<Byte>, w: seq<Byte>, b: Bits, i: nat)
    requires |v| == 8 && |w| == 8 && |b| == 64 && i < 64 && Packed(v, b, i)
    requires forall j | 0 <= j < 8 :: w[j] == if b[i] && j == i / 8 then v[j] | Mask(i % 8) else v[j]
    ensures Packed(w, b, i + 1)
  {
    forall j: nat, t: nat | j < 8 && t < 8
      ensures ByteBit(w[j], t) == (8 * j + t < i + 1 && b[8 * j + t])
    {
      assert ByteBit(v[j], t) == (8 * j + t < i && b[8 * j + t]);
      if j == i / 8 && b[i] {
        MaskBits(v[j], i % 8, t);
        assert 8 * j + i % 8 == i;
      }
    }
  }

  lemma AllPacked(v: seq<Byte>, b: Bits)
    requires |v| == 8 && |b| == 64 && Packed(v, b, 64)
    ensures ToBits(v) == b
  {
    forall i | 0 <= i < 64
      ensures ToBits(v)[i] == b[i]
    {
      ToBitsAt(v, i / 8, i % 8);
      assert ByteBit(v[i / 8], i % 8) == b[8 * (i / 8) + i % 8];
    }
  }

  method Pack(out: array<Byte>, o: nat, outb: Bits)
    requires o + 8 <= out.Length && |outb| == 64
    modifies out
    ensures ToBits(out[o..o + 8]) == outb
    ensures out[..o] == old(out[..o]) && out[o + 8..] == old(out[o + 8..])
  {
    for i := 0 to 8
      invariant forall q | o <= q < o + i :: out[q] == 0
      invariant forall q | 0 <= q < out.Length && !(o <= q < o + 8) :: out[q] == old(out[q])
    {
      out[o + i] := 0;
    }
    ghost var zero := out[o..o + 8];
    assert forall j | 0 <= j < 8 :: zero[j] == 0;
    NothingPacked(zero, outb);
    for i := 0 to 64
      invariant Packed(out[o..o + 8], outb, i)
      invariant forall q | 0 <= q < out.Length && !(o <= q < o + 8) :: out[q] == old(out[q])
    {
      ghost var v := out[o..o + 8];
      if outb[i] {
        out[o + i / 8] := out[o + i / 8] | Mask(i % 8);
      }
      ghost var w := out[o..o + 8];
      assert forall j | 0 <= j < 8 :: w[j] == if outb[i] && j == i / 8 then v[j] | Mask(i % 8) else v[j];
      PackOne(v, w, outb, i);
    }
    AllPacked(out[o..o + 8], outb);
  }

  /** smbhash: eight bytes of `input` to eight bytes of `out`, which may be the same array. */
  method SmbHash(t: Tables, out: array<Byte>, o: nat, input: array<Byte>, n: nat, key: array<Byte>, k: nat, forw: bool)
    requires Usable(t) && o + 8 <= out.Length && n + 8 <= input.Length && k + 7 <= key.Length
    modifies out
    ensures out[o..o + 8] == Hashed(t, old(input[n..n + 8]), old(key[k..k + 7]), forw)
    ensures out[..o] == old(out[..o]) && out[o + 8..] == old(out[o + 8..])
  {
    var key2 := StrToKey(key[k..k + 7]);
    var inb := Unpack(input[n..n + 8]);
    var keyb := Unpack(key2[..]);
    var outb := new bool[64];
    DoHash(t, outb, inb, keyb, forw);
    Pack(out, o, outb[..]);
    FromBitsToBits(outb[..]);
    ToBitsInjective(out[o..o + 8], FromBits(outb[..]));
  }

  /** The sixteen bytes `x`, each half put through smbhash with its half of the key. */
  ghost function HashedPair(t: Tables, x: seq<Byte>, p14: seq<Byte>, forw: bool): (y: seq<Byte>)
    requires Usable(t) && |x| == 16 && |p14| == 14
    ensures |y| == 16
  {
    Hashed(t, x[..8], p14[..7], forw) + Hashed(t, x[8..], p14[7..], forw)
  }

  method HashPair(t: Tables, p14: array<Byte>, input: array<Byte>, out: array<Byte>, forw: bool)
    requires Usable(t) && p14.Length == 14 && input.Length == 16 && out.Length == 16 && out != p14
    modifies out
    ensures out[..] == HashedPair(t, old(input[..]), p14[..], forw)
  {
    hide Hashed;
    ghost var x := input[..];
    assert input[0..8] == x[..8] && p14[0..7] == p14[..7];
    SmbHash(t, out, 0, input, 0, p14, 0, forw);
    ghost var first := out[..8];
    assert out[0..8] == first && input[8..16] == x[8..] && p14[7..14] == p14[7..];
    SmbHash(t, out, 8, input, 8, p14, 7, forw);
    assert out[..][..8] == first && out[..][8..] == out[8..16];
  }

  /** One of the two 16-byte operations, with the tables of the source. */
  ghost function Crypted(x: seq<Byte>, p14: seq<Byte>, forw: bool): (y: seq<Byte>)
    requires |x| == 16 && |p14| == 14
    ensures |y| == 16
  {
    SourceTables();
    HashedPair(TABLES, x, p14, forw)
  }

  /** E_old_pw_hash; `out` may be `input`. */
  method EOldPwHash(p14: array<Byte>, input: array<Byte>, out: array<Byte>)
    requires p14.Length == 14 && input.Length == 16 && out.Length == 16 && out != p14
    modifies out
    ensures out[..] == Crypted(old(input[..]), p14[..], true)
  {
    SourceTables();
    HashPair(TABLES, p14, input, out, true);
  }

  /** D_P16; `out` may be `input`. */
  method DP16(p14: array<Byte>, input: array<Byte>, out: array<Byte>)
    requires p14.Length == 14 && input.Length == 16 && out.Length == 16 && out != p14
    modifies out
    ensures out[..] == Crypted(old(input[..]), p14[..], false)
  {
    SourceTables();
    HashPair(TABLES, p14, input, out, false);
  }

  lemma HashUndone(t: Tables, x: seq<Byte>, key: seq<Byte>, forw: bool)
    requires Usable(t) && Inverse(t) && |x| == 8 && |key| == 7
    ensures Hashed(t, Hashed(t, x, key, forw), key, !forw) == x
  {
    hide FromBits, ToBits, Cipher, KeyBits;
    FromBitsToBits(Cipher(t, ToBits(x), KeyBits(key), forw));
    Deciphering(t, ToBits(x), KeyBits(key), forw);
    FromBitsToBits(ToBits(x));
    ToBitsInjective(FromBits(ToBits(x)), x);
  }

  /** Deciphering undoes enciphering, and the other way round, under every key. */
  lemma CryptedUndone(x: seq<Byte>, p14: seq<Byte>, forw: bool)
    requires |x| == 16 && |p14| == 14
    ensures Crypted(Crypted(x, p14, forw), p14, !forw) == x
  {
    hide Hashed;
    SourceTables();
    HashUndone(TABLES, x[..8], p14[..7], forw);
    HashUndone(TABLES, x[8..], p14[7..], forw);
    var y := Crypted(x, p14, forw);
    assert y[..8] == Hashed(TABLES, x[..8], p14[..7], forw) && y[8..] == Hashed(TABLES, x[8..], p14[7..], forw);
    assert x == x[..8] + x[8..];
  }
}
