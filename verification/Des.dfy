/**
  The DES of smbdes.c as a function on bits, one boolean for each char that holds a bit:
  key schedule, rounds, and the two directions, which undo each other.
 */
module Des {
  import opened DesTables

  type Bits = seq<bool>

  datatype Halves = Halves(l: Bits, r: Bits)

  ghost predicate Sized(h: Halves) {
    |h.l| == 32 && |h.r| == 32
  }

  ghost predicate Subkeys(ks: seq<Bits>) {
    forall k <- ks :: |k| == 48
  }

  /** permute: bit i of the result is bit p[i], counted from 1, of `s`. */
  function Permute(s: Bits, p: seq<nat>): (t: Bits)
    requires InRange(p, |s|)
    ensures |t| == |p|
  {
    seq(|p|, i requires 0 <= i < |p| => s[p[i] - 1])
  }

  /** lshift: rotation to the left. */
  function Rotate(s: Bits, count: nat): (t: Bits)
    requires count <= |s|
    ensures |t| == |s|
  {
    s[count..] + s[..count]
  }

  /** exor */
  function Xor(a: Bits, b: Bits): (t: Bits)
    requires |a| == |b|
    ensures |t| == |a|
  {
    seq(|a|, i requires 0 <= i < |a| => a[i] != b[i])
  }

  lemma XorTwice(a: Bits, b: Bits)
    requires |a| == |b|
    ensures Xor(Xor(a, b), b) == a
  {
  }

  // ----- The key schedule -----

  /** One half of the key after n rounds. */
  function Turned(t: Tables, half: Bits, n: nat): (h: Bits)
    requires Usable(t) && |half| == 28 && n <= 16
    ensures |h| == 28
  {
    if n == 0 then half else Rotate(Turned(t, half, n - 1), t.sc[n - 1])
  }

  function Subkey(t: Tables, key: Bits, i: nat): (k: Bits)
    requires Usable(t) && |key| == 64 && i < 16
    ensures |k| == 48
  {
    var e := Permute(key, t.perm1);
    Permute(Turned(t, e[..28], i + 1) + Turned(t, e[28..], i + 1), t.perm2)
  }

  function Schedule(t: Tables, key: Bits): (ks: seq<Bits>)
    requires Usable(t) && |key| == 64
    ensures |ks| == 16 && Subkeys(ks) && forall i | 0 <= i < 16 :: ks[i] == Subkey(t, key, i)
  {
    seq(16, i requires 0 <= i < 16 => Subkey(t, key, i))
  }

  // ----- One round -----

  function Value(b: bool): nat {
    if b then 1 else 0
  }

  /** Bit k, from the left, of what S-box j makes of the six bits b. */
  predicate SOut(t: Tables, j: nat, b: Bits, k: nat)
    requires Usable(t) && j < 8 && |b| == 6 && k < 4
  {
    var m := 2 * Value(b[0]) + Value(b[5]);
    var n := 8 * Value(b[1]) + 4 * Value(b[2]) + 2 * Value(b[3]) + Value(b[4]);
    BitOfFour(t.sbox[j][16 * m + n], k)
  }

  function BitOfFour(v: nat, k: nat): bool
    requires k < 4
  {
    (if k == 0 then v / 8 else if k == 1 then v / 4 else if k == 2 then v / 2 else v) % 2 == 1
  }

  function Substituted(t: Tables, e: Bits): (s: Bits)
    requires Usable(t) && |e| == 48
    ensures |s| == 32
  {
    seq(32, i requires 0 <= i < 32 => SOut(t, i / 4, e[6 * (i / 4)..6 * (i / 4) + 6], i % 4))
  }

  /** What a round adds to its left half. */
  function Scramble(t: Tables, r: Bits, k: Bits): (s: Bits)
    requires Usable(t) && |r| == 32 && |k| == 48
    ensures |s| == 32
  {
    Permute(Substituted(t, Xor(Permute(r, t.perm4), k)), t.perm5)
  }

  function Swap(h: Halves): Halves {
    Halves(h.r, h.l)
  }

  function Round(t: Tables, h: Halves, k: Bits): (g: Halves)
    requires Usable(t) && Sized(h) && |k| == 48
    ensures Sized(g)
  {
    Halves(h.r, Xor(h.l, Scramble(t, h.r, k)))
  }

  function Rounds(t: Tables, h: Halves, ks: seq<Bits>): (g: Halves)
    requires Usable(t) && Sized(h) && Subkeys(ks)
    ensures Sized(g)
    decreases |ks|
  {
    if ks == [] then h else Round(t, Rounds(t, h, ks[..|ks| - 1]), ks[|ks| - 1])
  }

  function Reversed(ks: seq<Bits>): (rs: seq<Bits>)
    ensures |rs| == |ks| && forall i | 0 <= i < |ks| :: rs[i] == ks[|ks| - 1 - i]
    ensures Subkeys(ks) ==> Subkeys(rs)
  {
    seq(|ks|, i requires 0 <= i < |ks| => ks[|ks| - 1 - i])
  }

  /** A round is undone by the same round on swapped halves. */
  lemma RoundUndone(t: Tables, h: Halves, k: Bits)
    requires Usable(t) && Sized(h) && |k| == 48
    ensures Round(t, Swap(Round(t, h, k)), k) == Swap(h)
  {
    XorTwice(h.l, Scramble(t, h.r, k));
  }

  lemma {:induction false} FirstRound(t: Tables, h: Halves, ks: seq<Bits>)
    requires Usable(t) && Sized(h) && Subkeys(ks) && ks != []
    ensures Rounds(t, h, ks) == Rounds(t, Round(t, h, ks[0]), ks[1..])
    decreases |ks|
  {
    hide Usable, Round;
    var n := |ks| - 1;
    if n == 0 {
      assert Rounds(t, h, ks[..0]) == h;
    } else {
      FirstRound(t, h, ks[..n]);
      assert ks[..n][1..] == ks[1..][..n - 1];
    }
  }

  lemma {:induction false} RoundsUndone(t: Tables, h: Halves, ks: seq<Bits>)
    requires Usable(t) && Sized(h) && Subkeys(ks)
    ensures Rounds(t, Swap(Rounds(t, h, ks)), Reversed(ks)) == Swap(h)
    decreases |ks|
  {
    if ks != [] {
      var n := |ks| - 1;
      var g := Rounds(t, h, ks[..n]);
      FirstRound(t, Swap(Round(t, g, ks[n])), Reversed(ks));
      RoundUndone(t, g, ks[n]);
      assert Reversed(ks)[1..] == Reversed(ks[..n]);
      RoundsUndone(t, h, ks[..n]);
    }
  }

  lemma OneMoreRound(t: Tables, h: Halves, ks: seq<Bits>, i: nat)
    requires Usable(t) && Sized(h) && Subkeys(ks) && i < |ks|
    ensures Rounds(t, h, ks[..i + 1]) == Round(t, Rounds(t, h, ks[..i]), ks[i])
  {
    assert ks[..i + 1][..i] == ks[..i];
  }

  lemma ReversedTwice(ks: seq<Bits>)
    ensures Reversed(Reversed(ks)) == ks
  {
  }

  // ----- The cipher -----

  function Crypt(t: Tables, input: Bits, ks: seq<Bits>): (out: Bits)
    requires Usable(t) && |input| == 64 && Subkeys(ks)
    ensures |out| == 64
  {
    var b := Permute(input, t.perm3);
    var h := Rounds(t, Halves(b[..32], b[32..]), ks);
    Permute(h.r + h.l, t.perm6)
  }

  /** dohash */
  function Cipher(t: Tables, input: Bits, key: Bits, forw: bool): (out: Bits)
    requires Usable(t) && |input| == 64 && |key| == 64
    ensures |out| == 64
  {
    Crypt(t, input, if forw then Schedule(t, key) else Reversed(Schedule(t, key)))
  }

  lemma PermutationUndone(s: Bits, p: seq<nat>, q: seq<nat>)
    requires |s| == |p| == |q| && InRange(p, |s|) && InRange(q, |s|)
    requires forall i | 0 <= i < |p| :: q[p[i] - 1] == i + 1
    ensures Permute(Permute(s, q), p) == s
  {
  }

  lemma CryptUndone(t: Tables, x: Bits, ks: seq<Bits>)
    requires Usable(t) && Inverse(t) && |x| == 64 && Subkeys(ks)
    ensures Crypt(t, Crypt(t, x, ks), Reversed(ks)) == x
  {
    var b := Permute(x, t.perm3);
    var h := Halves(b[..32], b[32..]);
    var g := Rounds(t, h, ks);
    PermutationUndone(g.r + g.l, t.perm3, t.perm6);
    assert (g.r + g.l)[..32] == g.r && (g.r + g.l)[32..] == g.l;
    RoundsUndone(t, h, ks);
    assert h.l + h.r == b;
    PermutationUndone(x, t.perm6, t.perm3);
  }

  /** Each direction undoes the other: the Deciphering section of FIPS PUB 46-3. */
  lemma Deciphering(t: Tables, x: Bits, key: Bits, forw: bool)
    requires Usable(t) && Inverse(t) && |x| == 64 && |key| == 64
    ensures Cipher(t, Cipher(t, x, key, forw), key, !forw) == x
  {
    var ks := Schedule(t, key);
    CryptUndone(t, x, if forw then ks else Reversed(ks));
    ReversedTwice(ks);
  }
}
