/**
  A published answer of DES, followed round by round: block 0123456789ABCDEF under key
  133457799BBCDFF1 gives 85E813540F0AB405.  Bits are given as numbers.
 */
module DesVector {
  import opened DesTables
  import opened Des

  /** Bit `k` of a number, counted from the right. */
  predicate On(w: bv64, k: nat) {
    k < 64 && (w >> k) & 1 == 1
  }

  /** The last `n` bits of a number, from left to right. */
  function Of(n: nat, w: bv64): (b: Bits)
    ensures |b| == n
  {
    seq(n, i requires 0 <= i < n => On(w, n - 1 - i))
  }

  /** All bits of a number. */
  lemma Digits(w: bv64)
    ensures On(w, 0) == ((w >> 0) & 1 == 1) && On(w, 1) == ((w >> 1) & 1 == 1)
    ensures On(w, 2) == ((w >> 2) & 1 == 1) && On(w, 3) == ((w >> 3) & 1 == 1)
    ensures On(w, 4) == ((w >> 4) & 1 == 1) && On(w, 5) == ((w >> 5) & 1 == 1)
    ensures On(w, 6) == ((w >> 6) & 1 == 1) && On(w, 7) == ((w >> 7) & 1 == 1)
    ensures On(w, 8) == ((w >> 8) & 1 == 1) && On(w, 9) == ((w >> 9) & 1 == 1)
    ensures On(w, 10) == ((w >> 10) & 1 == 1) && On(w, 11) == ((w >> 11) & 1 == 1)
    ensures On(w, 12) == ((w >> 12) & 1 == 1) && On(w, 13) == ((w >> 13) & 1 == 1)
    ensures On(w, 14) == ((w >> 14) & 1 == 1) && On(w, 15) == ((w >> 15) & 1 == 1)
    ensures On(w, 16) == ((w >> 16) & 1 == 1) && On(w, 17) == ((w >> 17) & 1 == 1)
    ensures On(w, 18) == ((w >> 18) & 1 == 1) && On(w, 19) == ((w >> 19) & 1 == 1)
    ensures On(w, 20) == ((w >> 20) & 1 == 1) && On(w, 21) == ((w >> 21) & 1 == 1)
    ensures On(w, 22) == ((w >> 22) & 1 == 1) && On(w, 23) == ((w >> 23) & 1 == 1)
    ensures On(w, 24) == ((w >> 24) & 1 == 1) && On(w, 25) == ((w >> 25) & 1 == 1)
    ensures On(w, 26) == ((w >> 26) & 1 == 1) && On(w, 27) == ((w >> 27) & 1 == 1)
    ensures On(w, 28) == ((w >> 28) & 1 == 1) && On(w, 29) == ((w >> 29) & 1 == 1)
    ensures On(w, 30) == ((w >> 30) & 1 == 1) && On(w, 31) == ((w >> 31) & 1 == 1)
    ensures On(w, 32) == ((w >> 32) & 1 == 1) && On(w, 33) == ((w >> 33) & 1 == 1)
    ensures On(w, 34) == ((w >> 34) & 1 == 1) && On(w, 35) == ((w >> 35) & 1 == 1)
    ensures On(w, 36) == ((w >> 36) & 1 == 1) && On(w, 37) == ((w >> 37) & 1 == 1)
    ensures On(w, 38) == ((w >> 38) & 1 == 1) && On(w, 39) == ((w >> 39) & 1 == 1)
    ensures On(w, 40) == ((w >> 40) & 1 == 1) && On(w, 41) == ((w >> 41) & 1 == 1)
    ensures On(w, 42) == ((w >> 42) & 1 == 1) && On(w, 43) == ((w >> 43) & 1 == 1)
    ensures On(w, 44) == ((w >> 44) & 1 == 1) && On(w, 45) == ((w >> 45) & 1 == 1)
    ensures On(w, 46) == ((w >> 46) & 1 == 1) && On(w, 47) == ((w >> 47) & 1 == 1)
    ensures On(w, 48) == ((w >> 48) & 1 == 1) && On(w, 49) == ((w >> 49) & 1 == 1)
    ensures On(w, 50) == ((w >> 50) & 1 == 1) && On(w, 51) == ((w >> 51) & 1 == 1)
    ensures On(w, 52) == ((w >> 52) & 1 == 1) && On(w, 53) == ((w >> 53) & 1 == 1)
    ensures On(w, 54) == ((w >> 54) & 1 == 1) && On(w, 55) == ((w >> 55) & 1 == 1)
    ensures On(w, 56) == ((w >> 56) & 1 == 1) && On(w, 57) == ((w >> 57) & 1 == 1)
    ensures On(w, 58) == ((w >> 58) & 1 == 1) && On(w, 59) == ((w >> 59) & 1 == 1)
    ensures On(w, 60) == ((w >> 60) & 1 == 1) && On(w, 61) == ((w >> 61) & 1 == 1)
    ensures On(w, 62) == ((w >> 62) & 1 == 1) && On(w, 63) == ((w >> 63) & 1 == 1)
  {
  }

  predicate Alike(o: bv64, i: nat, w: bv64, k: nat) {
    On(o, i) == On(w, k)
  }

  predicate Sum(o: bv64, i: nat, w: bv64, k: nat, u: bv64) {
    On(o, i) == (On(w, k) != On(u, i))
  }

  // ----- The tables that are used in every round -----

  /** perm2: 48 of the 56 bits of the key */
  predicate Perm2Of(o: bv64, w: bv64) {
    && Alike(o, 47, w, 42) && Alike(o, 46, w, 39) && Alike(o, 45, w, 45) && Alike(o, 44, w, 32) && Alike(o, 43, w, 55)
    && Alike(o, 42, w, 51) && Alike(o, 41, w, 53) && Alike(o, 40, w, 28) && Alike(o, 39, w, 41) && Alike(o, 38, w, 50)
    && Alike(o, 37, w, 35) && Alike(o, 36, w, 46) && Alike(o, 35, w, 33) && Alike(o, 34, w, 37) && Alike(o, 33, w, 44)
    && Alike(o, 32, w, 52) && Alike(o, 31, w, 30) && Alike(o, 30, w, 48) && Alike(o, 29, w, 40) && Alike(o, 28, w, 49)
    && Alike(o, 27, w, 29) && Alike(o, 26, w, 36) && Alike(o, 25, w, 43) && Alike(o, 24, w, 54) && Alike(o, 23, w, 15)
    && Alike(o, 22, w, 4) && Alike(o, 21, w, 25) && Alike(o, 20, w, 19) && Alike(o, 19, w, 9) && Alike(o, 18, w, 1)
    && Alike(o, 17, w, 26) && Alike(o, 16, w, 16) && Alike(o, 15, w, 5) && Alike(o, 14, w, 11) && Alike(o, 13, w, 23)
    && Alike(o, 12, w, 8) && Alike(o, 11, w, 12) && Alike(o, 10, w, 7) && Alike(o, 9, w, 17) && Alike(o, 8, w, 0)
    && Alike(o, 7, w, 22) && Alike(o, 6, w, 3) && Alike(o, 5, w, 10) && Alike(o, 4, w, 14) && Alike(o, 3, w, 6)
    && Alike(o, 2, w, 20) && Alike(o, 1, w, 27) && Alike(o, 0, w, 24)
  }

  /** perm4, and exor with `u`: 32 bits become 48 */
  predicate Perm4Sum(o: bv64, w: bv64, u: bv64) {
    && Sum(o, 47, w, 0, u) && Sum(o, 46, w, 31, u) && Sum(o, 45, w, 30, u) && Sum(o, 44, w, 29, u)
    && Sum(o, 43, w, 28, u) && Sum(o, 42, w, 27, u) && Sum(o, 41, w, 28, u) && Sum(o, 40, w, 27, u)
    && Sum(o, 39, w, 26, u) && Sum(o, 38, w, 25, u) && Sum(o, 37, w, 24, u) && Sum(o, 36, w, 23, u)
    && Sum(o, 35, w, 24, u) && Sum(o, 34, w, 23, u) && Sum(o, 33, w, 22, u) && Sum(o, 32, w, 21, u)
    && Sum(o, 31, w, 20, u) && Sum(o, 30, w, 19, u) && Sum(o, 29, w, 20, u) && Sum(o, 28, w, 19, u)
    && Sum(o, 27, w, 18, u) && Sum(o, 26, w, 17, u) && Sum(o, 25, w, 16, u) && Sum(o, 24, w, 15, u)
    && Sum(o, 23, w, 16, u) && Sum(o, 22, w, 15, u) && Sum(o, 21, w, 14, u) && Sum(o, 20, w, 13, u)
    && Sum(o, 19, w, 12, u) && Sum(o, 18, w, 11, u) && Sum(o, 17, w, 12, u) && Sum(o, 16, w, 11, u)
    && Sum(o, 15, w, 10, u) && Sum(o, 14, w, 9, u) && Sum(o, 13, w, 8, u) && Sum(o, 12, w, 7, u)
    && Sum(o, 11, w, 8, u) && Sum(o, 10, w, 7, u) && Sum(o, 9, w, 6, u) && Sum(o, 8, w, 5, u)
    && Sum(o, 7, w, 4, u) && Sum(o, 6, w, 3, u) && Sum(o, 5, w, 4, u) && Sum(o, 4, w, 3, u)
    && Sum(o, 3, w, 2, u) && Sum(o, 2, w, 1, u) && Sum(o, 1, w, 0, u) && Sum(o, 0, w, 31, u)
  }

  /** perm5, and exor with `u` */
  predicate Perm5Sum(o: bv64, w: bv64, u: bv64) {
    && Sum(o, 31, w, 16, u) && Sum(o, 30, w, 25, u) && Sum(o, 29, w, 12, u) && Sum(o, 28, w, 11, u)
    && Sum(o, 27, w, 3, u) && Sum(o, 26, w, 20, u) && Sum(o, 25, w, 4, u) && Sum(o, 24, w, 15, u)
    && Sum(o, 23, w, 31, u) && Sum(o, 22, w, 17, u) && Sum(o, 21, w, 9, u) && Sum(o, 20, w, 6, u)
    && Sum(o, 19, w, 27, u) && Sum(o, 18, w, 14, u) && Sum(o, 17, w, 1, u) && Sum(o, 16, w, 22, u)
    && Sum(o, 15, w, 30, u) && Sum(o, 14, w, 24, u) && Sum(o, 13, w, 8, u) && Sum(o, 12, w, 18, u)
    && Sum(o, 11, w, 0, u) && Sum(o, 10, w, 5, u) && Sum(o, 9, w, 29, u) && Sum(o, 8, w, 23, u)
    && Sum(o, 7, w, 13, u) && Sum(o, 6, w, 19, u) && Sum(o, 5, w, 2, u) && Sum(o, 4, w, 26, u)
    && Sum(o, 3, w, 10, u) && Sum(o, 2, w, 21, u) && Sum(o, 1, w, 28, u) && Sum(o, 0, w, 7, u)
  }

  /** `o` has the `n` bits that `p` selects from the last `m` bits of `w`. */
  ghost predicate Picked(o: bv64, n: nat, w: bv64, m: nat, p: seq<nat>)
    requires n == |p| && InRange(p, m)
  {
    PickedFrom(o, n, w, m, p, 0, n)
  }

  ghost predicate PickedFrom(o: bv64, n: nat, w: bv64, m: nat, p: seq<nat>, lo: nat, hi: nat)
    requires n == |p| && InRange(p, m) && hi <= n
  {
    forall j | lo <= j < hi :: Alike(o, n - 1 - j, w, m - p[j])
  }

  ghost predicate Summed(o: bv64, n: nat, w: bv64, m: nat, p: seq<nat>, u: bv64)
    requires n == |p| && InRange(p, m)
  {
    SummedFrom(o, n, w, m, p, u, 0, n)
  }

  ghost predicate SummedFrom(o: bv64, n: nat, w: bv64, m: nat, p: seq<nat>, u: bv64, lo: nat, hi: nat)
    requires n == |p| && InRange(p, m) && hi <= n
  {
    forall j | lo <= j < hi :: Sum(o, n - 1 - j, w, m - p[j], u)
  }

  lemma Perm2Table(o: bv64, w: bv64)
    requires Perm2Of(o, w) && Selects(PERM2, 48, 56)
    ensures Picked(o, 48, w, 56, PERM2)
  {
    hide On, Perm2Of, Alike;
    Perm2Part(o, w, 0);
    Perm2Part(o, w, 16);
    Perm2Part(o, w, 32);
  }

  lemma Perm2Part(o: bv64, w: bv64, lo: nat)
    requires Perm2Of(o, w) && Selects(PERM2, 48, 56) && (lo == 0 || lo == 16 || lo == 32)
    ensures PickedFrom(o, 48, w, 56, PERM2, lo, lo + 16)
  {
    hide On;
    if lo == 0 {
    } else if lo == 16 {
    } else {
    }
  }

  lemma Perm4Table(o: bv64, w: bv64, u: bv64)
    requires Perm4Sum(o, w, u) && Selects(PERM4, 48, 32)
    ensures Summed(o, 48, w, 32, PERM4, u)
  {
    hide On, Perm4Sum, Sum;
    Perm4Part(o, w, u, 0);
    Perm4Part(o, w, u, 16);
    Perm4Part(o, w, u, 32);
  }

  lemma Perm4Part(o: bv64, w: bv64, u: bv64, lo: nat)
    requires Perm4Sum(o, w, u) && Selects(PERM4, 48, 32) && (lo == 0 || lo == 16 || lo == 32)
    ensures SummedFrom(o, 48, w, 32, PERM4, u, lo, lo + 16)
  {
    hide On;
    if lo == 0 {
    } else if lo == 16 {
    } else {
    }
  }

  lemma Perm5Table(o: bv64, w: bv64, u: bv64)
    requires Perm5Sum(o, w, u) && Selects(PERM5, 32, 32)
    ensures Summed(o, 32, w, 32, PERM5, u)
  {
    hide On;
  }

  lemma PickedIs(o: bv64, n: nat, w: bv64, m: nat, p: seq<nat>)
    requires n == |p| && InRange(p, m) && Picked(o, n, w, m, p)
    ensures Permute(Of(m, w), p) == Of(n, o)
  {
    hide On;
    forall j | 0 <= j < n ensures Permute(Of(m, w), p)[j] == Of(n, o)[j] {
      assert Alike(o, n - 1 - j, w, m - p[j]);
    }
  }

  lemma SummedIs(o: bv64, n: nat, w: bv64, m: nat, p: seq<nat>, u: bv64)
    requires n == |p| && InRange(p, m) && Summed(o, n, w, m, p, u)
    ensures Xor(Permute(Of(m, w), p), Of(n, u)) == Of(n, o) && Xor(Of(n, u), Permute(Of(m, w), p)) == Of(n, o)
  {
    hide On;
    forall j | 0 <= j < n ensures Of(n, o)[j] == (Permute(Of(m, w), p)[j] != Of(n, u)[j]) {
      assert Sum(o, n - 1 - j, w, m - p[j], u);
    }
  }

  // ----- Halves -----

  predicate JoinedOf(o: bv64, a: bv64, b: bv64) {
    forall k | 0 <= k < 32 :: On(o, k) == On(b, k) && On(o, 32 + k) == On(a, k)
  }

  lemma JoinIs(o: bv64, a: bv64, b: bv64)
    requires JoinedOf(o, a, b)
    ensures Of(64, o) == Of(32, a) + Of(32, b) && Of(64, o)[..32] == Of(32, a) && Of(64, o)[32..] == Of(32, b)
  {
    hide On;
    forall k: nat | 32 <= k < 64 ensures On(o, k) == On(a, k - 32) {
      assert On(o, 32 + (k - 32)) == On(a, k - 32);
    }
  }

  /** The place in both halves of the key from which lshift brings bit `k`. */
  function Source(k: nat, count: nat): nat
    requires count < 28
  {
    if k < count then k + 28 - count else if 28 <= k < 28 + count then k + 28 - count else k - count
  }

  predicate RotatedOf(o: bv64, w: bv64, count: nat)
    requires count < 28
  {
    forall k | 0 <= k < 56 :: Alike(o, k, w, Source(k, count))
  }

  lemma RotateIs(o: bv64, w: bv64, count: nat, c: Bits, d: Bits)
    requires count < 28 && RotatedOf(o, w, count) && |c| == |d| == 28 && c + d == Of(56, w)
    ensures Rotate(c, count) + Rotate(d, count) == Of(56, o)
  {
    hide On, Rotate, Of, RotatedOf, Source;
    forall i | 0 <= i < 56
      ensures (Rotate(c, count) + Rotate(d, count))[i] == Of(56, o)[i]
    {
      var from := if i < 28 then (if i + count < 28 then i + count else i + count - 28)
                  else if i + count < 56 then i + count else i + count - 28;
      RotateAt(if i < 28 then c else d, count, if i < 28 then i else i - 28);
      assert (c + d)[from] == if i < 28 then c[from] else d[from - 28];
      RotatedAt(o, w, count, i, from);
    }
  }

  lemma RotatedAt(o: bv64, w: bv64, count: nat, i: nat, from: nat)
    requires count < 28 && RotatedOf(o, w, count) && i < 56
    requires from == if i < 28 then (if i + count < 28 then i + count else i + count - 28)
                     else if i + count < 56 then i + count else i + count - 28
    ensures from < 56 && Of(56, o)[i] == Of(56, w)[from]
  {
    hide On;
    assert Alike(o, 55 - i, w, Source(55 - i, count)) && Source(55 - i, count) == 55 - from;
  }

  lemma RotateAt(half: Bits, count: nat, i: nat)
    requires |half| == 28 && count < 28 && i < 28
    ensures Rotate(half, count)[i] == half[if i + count < 28 then i + count else i + count - 28]
  {
  }

  // ----- S-boxes -----

  /** The six bits for S-box `j`. */
  function Six(x: bv64, j: nat): (b: Bits)
    requires j < 8
    ensures |b| == 6
  {
    [On(x, 47 - 6 * j), On(x, 46 - 6 * j), On(x, 45 - 6 * j), On(x, 44 - 6 * j), On(x, 43 - 6 * j), On(x, 42 - 6 * j)]
  }

  /** Where they lead in it. */
  function Place(x: bv64, j: nat): nat
    requires j < 8
  {
    32 * Value(On(x, 47 - 6 * j)) + 16 * Value(On(x, 42 - 6 * j)) + 8 * Value(On(x, 46 - 6 * j))
    + 4 * Value(On(x, 45 - 6 * j)) + 2 * Value(On(x, 44 - 6 * j)) + Value(On(x, 43 - 6 * j))
  }

  /** The six bits of `x` lead to place `p`, and `v` are the four bits of `s`. */
  predicate Indexed(x: bv64, s: bv64, j: nat, p: nat, v: nat)
    requires j < 8
  {
    && Place(x, j) == p
    && BitOfFour(v, 0) == On(s, 31 - 4 * j) && BitOfFour(v, 1) == On(s, 30 - 4 * j)
    && BitOfFour(v, 2) == On(s, 29 - 4 * j) && BitOfFour(v, 3) == On(s, 28 - 4 * j)
  }

  predicate Has(box: seq<nat>, p: nat, v: nat) {
    p < |box| && box[p] == v
  }

  /** Eight numbers of four or six bits. */
  datatype Eight = Eight(n0: nat, n1: nat, n2: nat, n3: nat, n4: nat, n5: nat, n6: nat, n7: nat) {
    function At(j: nat): nat
      requires j < 8
    {
      if j == 0 then n0 else if j == 1 then n1 else if j == 2 then n2 else if j == 3 then n3
      else if j == 4 then n4 else if j == 5 then n5 else if j == 6 then n6 else n7
    }
  }

  /** The places that `x` leads to, and the numbers that make up `s`. */
  predicate BoxStep(x: bv64, s: bv64, p: Eight, v: Eight) {
    && Indexed(x, s, 0, p.n0, v.n0) && Indexed(x, s, 1, p.n1, v.n1) && Indexed(x, s, 2, p.n2, v.n2)
    && Indexed(x, s, 3, p.n3, v.n3) && Indexed(x, s, 4, p.n4, v.n4) && Indexed(x, s, 5, p.n5, v.n5)
    && Indexed(x, s, 6, p.n6, v.n6) && Indexed(x, s, 7, p.n7, v.n7)
  }

  /** The S-boxes have these numbers at these places. */
  predicate Looked(p: Eight, v: Eight) {
    && Has(SBOX0, p.n0, v.n0) && Has(SBOX1, p.n1, v.n1) && Has(SBOX2, p.n2, v.n2) && Has(SBOX3, p.n3, v.n3)
    && Has(SBOX4, p.n4, v.n4) && Has(SBOX5, p.n5, v.n5) && Has(SBOX6, p.n6, v.n6) && Has(SBOX7, p.n7, v.n7)
  }

  lemma SixOf(x: bv64, j: nat)
    requires j < 8
    ensures Of(48, x)[6 * j..6 * j + 6] == Six(x, j)
  {
    hide On;
  }

  lemma BoxIs(t: Tables, x: bv64, s: bv64, j: nat, p: nat, v: nat, k: nat)
    requires Usable(t) && j < 8 && Indexed(x, s, j, p, v) && Has(t.sbox[j], p, v) && k < 4
    ensures SOut(t, j, Six(x, j), k) == On(s, 31 - 4 * j - k)
  {
    hide On, BitOfFour;
  }

  lemma BoxesAre(t: Tables, x: bv64, s: bv64, p: Eight, v: Eight)
    requires Usable(t) && forall j | 0 <= j < 8 :: Indexed(x, s, j, p.At(j), v.At(j)) && Has(t.sbox[j], p.At(j), v.At(j))
    ensures Substituted(t, Of(48, x)) == Of(32, s)
  {
    hide On, Six, SOut, Usable, Indexed, Has;
    forall i | 0 <= i < 32 ensures Substituted(t, Of(48, x))[i] == Of(32, s)[i] {
      SixOf(x, i / 4);
      BoxIs(t, x, s, i / 4, p.At(i / 4), v.At(i / 4), i % 4);
    }
  }

  // ----- The rounds, in numbers -----

  /** Both halves `w` of the key are turned to `next`, which gives the subkey `k`; with it `r` makes `x`; and from
      `l` and what the S-boxes give, `s`, comes the new right half `out`. */
  predicate RoundStep(w: bv64, next: bv64, count: nat, k: bv64, l: bv64, r: bv64, x: bv64, s: bv64, out: bv64)
    requires count < 28
  {
    RotatedOf(next, w, count) && Perm2Of(k, next) && Perm4Sum(x, r, k) && Perm5Sum(out, s, l)
  }

  lemma Round1()
    ensures RoundStep(0xF0CCAAF556678F, 0xE19955FAACCF1E, 1, 0x1B02EFFC7072, 0xCC00CCFF, 0xF0AAF0AA,
                      0x6117BA866527, 0x5C82B597, 0xEF4A6544)
  {
    Digits(0xF0CCAAF556678F);
    Digits(0xE19955FAACCF1E);
    Digits(0x1B02EFFC7072);
    Digits(0xCC00CCFF);
    Digits(0xF0AAF0AA);
    Digits(0x6117BA866527);
    Digits(0x5C82B597);
    Digits(0xEF4A6544);
    hide On;
  }

  lemma Boxes1()
    ensures BoxStep(0x6117BA866527, 0x5C82B597, Eight(12, 24, 15, 45, 48, 35, 10, 51),
                    Eight(5, 12, 8, 2, 11, 5, 9, 7))
  {
    Digits(0x6117BA866527);
    Digits(0x5C82B597);
    hide On;
  }

  lemma Looked1()
    ensures Looked(Eight(12, 24, 15, 45, 48, 35, 10, 51), Eight(5, 12, 8, 2, 11, 5, 9, 7))
  {
  }

  lemma Round2()
    ensures RoundStep(0xE19955FAACCF1E, 0xC332ABF5599E3D, 1, 0x79AED9DBC9E5, 0xF0AAF0AA, 0xEF4A6544,
                      0x0C448DEB63EC, 0xF8D03AAE, 0xCC017709)
  {
    Digits(0xE19955FAACCF1E);
    Digits(0xC332ABF5599E3D);
    Digits(0x79AED9DBC9E5);
    Digits(0xF0AAF0AA);
    Digits(0xEF4A6544);
    Digits(0x0C448DEB63EC);
    Digits(0xF8D03AAE);
    Digits(0xCC017709);
    hide On;
  }

  lemma Boxes2()
    ensures BoxStep(0x0C448DEB63EC, 0xF8D03AAE, Eight(17, 2, 9, 22, 45, 43, 23, 38),
                    Eight(15, 8, 13, 0, 3, 10, 10, 14))
  {
    Digits(0x0C448DEB63EC);
    Digits(0xF8D03AAE);
    hide On;
  }

  lemma Looked2()
    ensures Looked(Eight(17, 2, 9, 22, 45, 43, 23, 38), Eight(15, 8, 13, 0, 3, 10, 10, 14))
  {
  }

  lemma Round3()
    ensures RoundStep(0xC332ABF5599E3D, 0x0CCAAFF56678F5, 2, 0x55FC8A42CF99, 0xEF4A6544, 0xCC017709,
                      0xB07C88F827CA, 0x2710E16F, 0xA25C0BF4)
  {
    Digits(0xC332ABF5599E3D);
    Digits(0x0CCAAFF56678F5);
    Digits(0x55FC8A42CF99);
    Digits(0xEF4A6544);
    Digits(0xCC017709);
    Digits(0xB07C88F827CA);
    Digits(0x2710E16F);
    Digits(0xA25C0BF4);
    hide On;
  }

  lemma Boxes3()
    ensures BoxStep(0xB07C88F827CA, 0x2710E16F, Eight(38, 19, 41, 4, 47, 1, 31, 5),
                    Eight(2, 7, 1, 0, 14, 1, 6, 15))
  {
    Digits(0xB07C88F827CA);
    Digits(0x2710E16F);
    hide On;
  }

  lemma Looked3()
    ensures Looked(Eight(38, 19, 41, 4, 47, 1, 31, 5), Eight(2, 7, 1, 0, 14, 1, 6, 15))
  {
  }

  lemma Round4()
    ensures RoundStep(0x0CCAAFF56678F5, 0x332ABFC599E3D5, 2, 0x72ADD6DB351D, 0xCC017709, 0xA25C0BF4,
                      0x22EF2EDE4AB4, 0x21ED9F3A, 0x77220045)
  {
    Digits(0x0CCAAFF56678F5);
    Digits(0x332ABFC599E3D5);
    Digits(0x72ADD6DB351D);
    Digits(0xCC017709);
    Digits(0xA25C0BF4);
    Digits(0x22EF2EDE4AB4);
    Digits(0x21ED9F3A);
    Digits(0x77220045);
    hide On;
  }

  lemma Boxes4()
    ensures BoxStep(0x22EF2EDE4AB4, 0x21ED9F3A, Eight(4, 39, 46, 39, 59, 34, 37, 42),
                    Eight(2, 1, 14, 13, 9, 15, 3, 10))
  {
    Digits(0x22EF2EDE4AB4);
    Digits(0x21ED9F3A);
    hide On;
  }

  lemma Looked4()
    ensures Looked(Eight(4, 39, 46, 39, 59, 34, 37, 42), Eight(2, 1, 14, 13, 9, 15, 3, 10))
  {
  }

  lemma Round5()
    ensures RoundStep(0x332ABFC599E3D5, 0xCCAAFF06678F55, 2, 0x7CEC07EB53A8, 0xA25C0BF4, 0x77220045,
                      0xC60503EB51A2, 0x50C831EB, 0x8A4FA637)
  {
    Digits(0x332ABFC599E3D5);
    Digits(0xCCAAFF06678F55);
    Digits(0x7CEC07EB53A8);
    Digits(0xA25C0BF4);
    Digits(0x77220045);
    Digits(0xC60503EB51A2);
    Digits(0x50C831EB);
    Digits(0x8A4FA637);
    hide On;
  }

  lemma Boxes5()
    ensures BoxStep(0xC60503EB51A2, 0x50C831EB, Eight(56, 32, 10, 17, 45, 58, 3, 33),
                    Eight(5, 0, 12, 8, 3, 1, 14, 11))
  {
    Digits(0xC60503EB51A2);
    Digits(0x50C831EB);
    hide On;
  }

  lemma Looked5()
    ensures Looked(Eight(56, 32, 10, 17, 45, 58, 3, 33), Eight(5, 0, 12, 8, 3, 1, 14, 11))
  {
  }

  lemma Round6()
    ensures RoundStep(0xCCAAFF06678F55, 0x32ABFC399E3D55, 2, 0x63A53E507B2F, 0x77220045, 0x8A4FA637,
                      0xA6E76180BA80, 0x41F34C3D, 0xE967CD69)
  {
    Digits(0xCCAAFF06678F55);
    Digits(0x32ABFC399E3D55);
    Digits(0x63A53E507B2F);
    Digits(0x77220045);
    Digits(0x8A4FA637);
    Digits(0xA6E76180BA80);
    Digits(0x41F34C3D);
    Digits(0xE967CD69);
    hide On;
  }

  lemma Boxes6()
    ensures BoxStep(0xA6E76180BA80, 0x41F34C3D, Eight(52, 39, 30, 48, 32, 21, 37, 0),
                    Eight(4, 1, 15, 3, 4, 12, 3, 13))
  {
    Digits(0xA6E76180BA80);
    Digits(0x41F34C3D);
    hide On;
  }

  lemma Looked6()
    ensures Looked(Eight(52, 39, 30, 48, 32, 21, 37, 0), Eight(4, 1, 15, 3, 4, 12, 3, 13))
  {
  }

  lemma Round7()
    ensures RoundStep(0x32ABFC399E3D55, 0xCAAFF0C678F556, 2, 0xEC84B7F618BC, 0x8A4FA637, 0xE967CD69,
                      0x19AFB813B3EF, 0x107540AD, 0x064ABA10)
  {
    Digits(0x32ABFC399E3D55);
    Digits(0xCAAFF0C678F556);
    Digits(0xEC84B7F618BC);
    Digits(0x8A4FA637);
    Digits(0xE967CD69);
    Digits(0x19AFB813B3EF);
    Digits(0x107540AD);
    Digits(0x064ABA10);
    hide On;
  }

  lemma Boxes7()
    ensures BoxStep(0x19AFB813B3EF, 0x107540AD, Eight(3, 13, 47, 44, 2, 61, 23, 55),
                    Eight(1, 0, 7, 5, 4, 0, 10, 13))
  {
    Digits(0x19AFB813B3EF);
    Digits(0x107540AD);
    hide On;
  }

  lemma Looked7()
    ensures Looked(Eight(3, 13, 47, 44, 2, 61, 23, 55), Eight(1, 0, 7, 5, 4, 0, 10, 13))
  {
  }

  lemma Round8()
    ensures RoundStep(0xCAAFF0C678F556, 0x2ABFC339E3D559, 2, 0xF78A3AC13BFB, 0xE967CD69, 0x064ABA10,
                      0xF7486F9E7B5B, 0x6C187CAE, 0xD5694B90)
  {
    Digits(0xCAAFF0C678F556);
    Digits(0x2ABFC339E3D559);
    Digits(0xF78A3AC13BFB);
    Digits(0xE967CD69);
    Digits(0x064ABA10);
    Digits(0xF7486F9E7B5B);
    Digits(0x6C187CAE);
    Digits(0xD5694B90);
    hide On;
  }

  lemma Boxes8()
    ensures BoxStep(0xF7486F9E7B5B, 0x6C187CAE, Eight(62, 42, 48, 55, 51, 51, 54, 29),
                    Eight(6, 12, 1, 8, 7, 12, 10, 14))
  {
    Digits(0xF7486F9E7B5B);
    Digits(0x6C187CAE);
    hide On;
  }

  lemma Looked8()
    ensures Looked(Eight(62, 42, 48, 55, 51, 51, 54, 29), Eight(6, 12, 1, 8, 7, 12, 10, 14))
  {
  }

  lemma Round9()
    ensures RoundStep(0x2ABFC339E3D559, 0x557F8663C7AAB3, 1, 0xE0DBEBEDE781, 0x064ABA10, 0xD5694B90,
                      0x8A70B9489B20, 0x110C5777, 0x247CC67A)
  {
    Digits(0x2ABFC339E3D559);
    Digits(0x557F8663C7AAB3);
    Digits(0xE0DBEBEDE781);
    Digits(0x064ABA10);
    Digits(0xD5694B90);
    Digits(0x8A70B9489B20);
    Digits(0x110C5777);
    Digits(0x247CC67A);
    hide On;
  }

  lemma Boxes9()
    ensures BoxStep(0x8A70B9489B20, 0x110C5777, Eight(33, 51, 1, 60, 9, 20, 38, 32),
                    Eight(1, 1, 0, 12, 5, 7, 7, 7))
  {
    Digits(0x8A70B9489B20);
    Digits(0x110C5777);
    hide On;
  }

  lemma Looked9()
    ensures Looked(Eight(33, 51, 1, 60, 9, 20, 38, 32), Eight(1, 1, 0, 12, 5, 7, 7, 7))
  {
  }

  lemma Round10()
    ensures RoundStep(0x557F8663C7AAB3, 0x55FE199F1EAACC, 2, 0xB1F347BA464F, 0xD5694B90, 0x247CC67A,
                      0xA170BEDA85BB, 0xDA045275, 0xB7D5D7B2)
  {
    Digits(0x557F8663C7AAB3);
    Digits(0x55FE199F1EAACC);
    Digits(0xB1F347BA464F);
    Digits(0xD5694B90);
    Digits(0x247CC67A);
    Digits(0xA170BEDA85BB);
    Digits(0xDA045275);
    Digits(0xB7D5D7B2);
    hide On;
  }

  lemma Boxes10()
    ensures BoxStep(0xA170BEDA85BB, 0xDA045275, Eight(36, 27, 1, 47, 43, 36, 11, 61),
                    Eight(13, 10, 0, 4, 5, 2, 7, 5))
  {
    Digits(0xA170BEDA85BB);
    Digits(0xDA045275);
    hide On;
  }

  lemma Looked10()
    ensures Looked(Eight(36, 27, 1, 47, 43, 36, 11, 61), Eight(13, 10, 0, 4, 5, 2, 7, 5))
  {
  }

  lemma Round11()
    ensures RoundStep(0x55FE199F1EAACC, 0x57F8665C7AAB33, 2, 0x215FD3DED386, 0x247CC67A, 0xB7D5D7B2,
                      0x7BA178342E23, 0x7305D101, 0xC5783C78)
  {
    Digits(0x55FE199F1EAACC);
    Digits(0x57F8665C7AAB33);
    Digits(0x215FD3DED386);
    Digits(0x247CC67A);
    Digits(0xB7D5D7B2);
    Digits(0x7BA178342E23);
    Digits(0x7305D101);
    Digits(0xC5783C78);
    hide On;
  }

  lemma Boxes11()
    ensures BoxStep(0x7BA178342E23, 0x7305D101, Eight(15, 45, 18, 44, 22, 1, 44, 49),
                    Eight(7, 3, 0, 5, 13, 1, 0, 1))
  {
    Digits(0x7BA178342E23);
    Digits(0x7305D101);
    hide On;
  }

  lemma Looked11()
    ensures Looked(Eight(15, 45, 18, 44, 22, 1, 44, 49), Eight(7, 3, 0, 5, 13, 1, 0, 1))
  {
  }

  lemma Round12()
    ensures RoundStep(0x57F8665C7AAB33, 0x5FE19951EAACCF, 2, 0x7571F59467E9, 0xB7D5D7B2, 0xC5783C78,
                      0x15DA058BE418, 0x7B8B2635, 0x75BD1858)
  {
    Digits(0x57F8665C7AAB33);
    Digits(0x5FE19951EAACCF);
    Digits(0x7571F59467E9);
    Digits(0xB7D5D7B2);
    Digits(0xC5783C78);
    Digits(0x15DA058BE418);
    Digits(0x7B8B2635);
    Digits(0x75BD1858);
    hide On;
  }

  lemma Boxes12()
    ensures BoxStep(0x15DA058BE418, 0x7B8B2635, Eight(18, 30, 36, 18, 33, 47, 8, 12),
                    Eight(7, 11, 8, 11, 2, 6, 3, 5))
  {
    Digits(0x15DA058BE418);
    Digits(0x7B8B2635);
    hide On;
  }

  lemma Looked12()
    ensures Looked(Eight(18, 30, 36, 18, 33, 47, 8, 12), Eight(7, 11, 8, 11, 2, 6, 3, 5))
  {
  }

  lemma Round13()
    ensures RoundStep(0x5FE19951EAACCF, 0x7F866557AAB33C, 2, 0x97C5D1FABA41, 0xC5783C78, 0x75BD1858,
                      0xAD782B75B8B1, 0x9AD18B4F, 0x18C3155A)
  {
    Digits(0x5FE19951EAACCF);
    Digits(0x7F866557AAB33C);
    Digits(0x97C5D1FABA41);
    Digits(0xC5783C78);
    Digits(0x75BD1858);
    Digits(0xAD782B75B8B1);
    Digits(0x9AD18B4F);
    Digits(0x18C3155A);
    hide On;
  }

  lemma Boxes13()
    ensures BoxStep(0xAD782B75B8B1, 0x9AD18B4F, Eight(53, 27, 32, 53, 30, 29, 33, 56),
                    Eight(9, 10, 13, 1, 8, 11, 4, 15))
  {
    Digits(0xAD782B75B8B1);
    Digits(0x9AD18B4F);
    hide On;
  }

  lemma Looked13()
    ensures Looked(Eight(53, 27, 32, 53, 30, 29, 33, 56), Eight(9, 10, 13, 1, 8, 11, 4, 15))
  {
  }

  lemma Round14()
    ensures RoundStep(0x7F866557AAB33C, 0xFE19955EAACCF1, 2, 0x5F43B7F2E73A, 0x75BD1858, 0x18C3155A,
                      0x5055B1784DCE, 0x64799AF1, 0xC28C960D)
  {
    Digits(0x7F866557AAB33C);
    Digits(0xFE19955EAACCF1);
    Digits(0x5F43B7F2E73A);
    Digits(0x75BD1858);
    Digits(0x18C3155A);
    Digits(0x5055B1784DCE);
    Digits(0x64799AF1);
    Digits(0xC28C960D);
    hide On;
  }

  lemma Boxes14()
    ensures BoxStep(0x5055B1784DCE, 0x64799AF1, Eight(10, 18, 11, 56, 15, 2, 59, 7),
                    Eight(6, 4, 7, 9, 9, 10, 15, 1))
  {
    Digits(0x5055B1784DCE);
    Digits(0x64799AF1);
    hide On;
  }

  lemma Looked14()
    ensures Looked(Eight(10, 18, 11, 56, 15, 2, 59, 7), Eight(6, 4, 7, 9, 9, 10, 15, 1))
  {
  }

  lemma Round15()
    ensures RoundStep(0xFE19955EAACCF1, 0xF866557AAB33C7, 2, 0xBF918D3D3F0A, 0x18C3155A, 0xC28C960D,
                      0x5FC5D477FF51, 0xB2E88D3C, 0x43423234)
  {
    Digits(0xFE19955EAACCF1);
    Digits(0xF866557AAB33C7);
    Digits(0xBF918D3D3F0A);
    Digits(0x18C3155A);
    Digits(0xC28C960D);
    Digits(0x5FC5D477FF51);
    Digits(0xB2E88D3C);
    Digits(0x43423234);
    hide On;
  }

  lemma Boxes15()
    ensures BoxStep(0x5FC5D477FF51, 0xB2E88D3C, Eight(27, 46, 27, 10, 30, 63, 62, 24),
                    Eight(11, 2, 14, 8, 8, 13, 3, 12))
  {
    Digits(0x5FC5D477FF51);
    Digits(0xB2E88D3C);
    hide On;
  }

  lemma Looked15()
    ensures Looked(Eight(27, 46, 27, 10, 30, 63, 62, 24), Eight(11, 2, 14, 8, 8, 13, 3, 12))
  {
  }

  lemma Round16()
    ensures RoundStep(0xF866557AAB33C7, 0xF0CCAAF556678F, 1, 0xCB3D8B0E17F5, 0xC28C960D, 0x43423234,
                      0xEB578F14565D, 0xA7832429, 0x0A4CD995)
  {
    Digits(0xF866557AAB33C7);
    Digits(0xF0CCAAF556678F);
    Digits(0xCB3D8B0E17F5);
    Digits(0xC28C960D);
    Digits(0x43423234);
    Digits(0xEB578F14565D);
    Digits(0xA7832429);
    Digits(0x0A4CD995);
    hide On;
  }

  lemma Boxes16()
    ensures BoxStep(0xEB578F14565D, 0xA7832429, Eight(45, 58, 15, 23, 18, 18, 28, 30),
                    Eight(10, 7, 8, 3, 2, 4, 2, 9))
  {
    Digits(0xEB578F14565D);
    Digits(0xA7832429);
    hide On;
  }

  lemma Looked16()
    ensures Looked(Eight(45, 58, 15, 23, 18, 18, 28, 30), Eight(10, 7, 8, 3, 2, 4, 2, 9))
  {
  }

  lemma KeyLeft()
    requires Selects(PERM1, 56, 64)
    ensures PickedFrom(0xF0CCAAF556678F, 56, 0x133457799BBCDFF1, 64, PERM1, 0, 28)
  {
    Digits(0xF0CCAAF556678F);
    Digits(0x133457799BBCDFF1);
    hide On;
  }

  lemma KeyRight()
    requires Selects(PERM1, 56, 64)
    ensures PickedFrom(0xF0CCAAF556678F, 56, 0x133457799BBCDFF1, 64, PERM1, 28, 56)
  {
    Digits(0xF0CCAAF556678F);
    Digits(0x133457799BBCDFF1);
    hide On;
  }

  lemma InitialLeft()
    requires Selects(PERM3, 64, 64)
    ensures PickedFrom(0xCC00CCFFF0AAF0AA, 64, 0x0123456789ABCDEF, 64, PERM3, 0, 32)
  {
    Digits(0xCC00CCFFF0AAF0AA);
    Digits(0x0123456789ABCDEF);
    hide On;
  }

  lemma InitialRight()
    requires Selects(PERM3, 64, 64)
    ensures PickedFrom(0xCC00CCFFF0AAF0AA, 64, 0x0123456789ABCDEF, 64, PERM3, 32, 64)
  {
    Digits(0xCC00CCFFF0AAF0AA);
    Digits(0x0123456789ABCDEF);
    hide On;
  }

  lemma FinalLeft()
    requires Selects(PERM6, 64, 64)
    ensures PickedFrom(0x85E813540F0AB405, 64, 0x0A4CD99543423234, 64, PERM6, 0, 32)
  {
    Digits(0x85E813540F0AB405);
    Digits(0x0A4CD99543423234);
    hide On;
  }

  lemma FinalRight()
    requires Selects(PERM6, 64, 64)
    ensures PickedFrom(0x85E813540F0AB405, 64, 0x0A4CD99543423234, 64, PERM6, 32, 64)
  {
    Digits(0x85E813540F0AB405);
    Digits(0x0A4CD99543423234);
    hide On;
  }

  lemma Shifts()
    ensures |SC| == 16
    ensures SC[0] == SC[1] == SC[8] == SC[15] == 1
    ensures SC[2] == SC[3] == SC[4] == SC[5] == SC[6] == SC[7] == SC[9] == SC[10] == SC[11] == SC[12] == SC[13] == SC[14] == 2
  {
  }

  // ----- The whole -----

  /** Where the cipher is after `n` rounds. */
  ghost predicate After(t: Tables, key: Bits, start: Halves, n: nat, w: bv64, l: bv64, r: bv64)
    requires Usable(t) && |key| == 64 && Sized(start) && n <= 16
  {
    && KeyAfter(t, key, n, w)
    && Rounds(t, start, Schedule(t, key)[..n]) == Halves(Of(32, l), Of(32, r))
  }

  ghost predicate KeyAfter(t: Tables, key: Bits, n: nat, w: bv64)
    requires Usable(t) && |key| == 64 && n <= 16
  {
    var e := Permute(key, t.perm1);
    Turned(t, e[..28], n) + Turned(t, e[28..], n) == Of(56, w)
  }

  lemma NextKey(t: Tables, key: Bits, n: nat, w: bv64, next: bv64, count: nat, k: bv64)
    requires Usable(t) && |key| == 64 && n < 16 && KeyAfter(t, key, n, w)
    requires count < 28 && t.sc[n] == count && RotatedOf(next, w, count) && Picked(k, 48, next, 56, t.perm2)
    ensures KeyAfter(t, key, n + 1, next) && Subkey(t, key, n) == Of(48, k)
  {
    var e := Permute(key, t.perm1);
    RotateIs(next, w, count, Turned(t, e[..28], n), Turned(t, e[28..], n));
    PickedIs(k, 48, next, 56, t.perm2);
  }

  lemma NextRound(t: Tables, k: bv64, l: bv64, r: bv64, x: bv64, s: bv64, out: bv64)
    requires Usable(t) && Summed(x, 48, r, 32, t.perm4, k) && Substituted(t, Of(48, x)) == Of(32, s)
    requires Summed(out, 32, s, 32, t.perm5, l)
    ensures Round(t, Halves(Of(32, l), Of(32, r)), Of(48, k)) == Halves(Of(32, r), Of(32, out))
  {
    hide On, Of, Permute, Xor, Substituted, Summed;
    SummedIs(x, 48, r, 32, t.perm4, k);
    SummedIs(out, 32, s, 32, t.perm5, l);
  }

  lemma Advance(t: Tables, key: Bits, start: Halves, n: nat, w: bv64, next: bv64, count: nat, k: bv64, l: bv64, r: bv64,
                x: bv64, s: bv64, out: bv64)
    requires Usable(t) && |key| == 64 && Sized(start) && n < 16 && After(t, key, start, n, w, l, r)
    requires count < 28 && t.sc[n] == count && RotatedOf(next, w, count) && Picked(k, 48, next, 56, t.perm2)
    requires Summed(x, 48, r, 32, t.perm4, k) && Substituted(t, Of(48, x)) == Of(32, s) &&
      Summed(out, 32, s, 32, t.perm5, l)
    ensures After(t, key, start, n + 1, next, r, out)
  {
    hide On, Round, Rounds, Subkey, Picked, Summed, RotatedOf, Of, KeyAfter, Permute, Substituted;
    NextKey(t, key, n, w, next, count, k);
    NextRound(t, k, l, r, x, s, out);
    OneMoreRound(t, start, Schedule(t, key), n);
  }

  lemma BoxesGive(x: bv64, s: bv64, p: Eight, v: Eight)
    requires Usable(TABLES) && BoxStep(x, s, p, v) && Looked(p, v)
    ensures Substituted(TABLES, Of(48, x)) == Of(32, s)
  {
    hide On, Six, SOut, Usable, Indexed, Has;
    BoxesAre(TABLES, x, s, p, v);
  }

  lemma StepTables(w: bv64, next: bv64, count: nat, k: bv64, l: bv64, r: bv64, x: bv64, s: bv64, out: bv64)
    requires Usable(TABLES) && count < 28 && RoundStep(w, next, count, k, l, r, x, s, out)
    ensures RotatedOf(next, w, count) && Picked(k, 48, next, 56, TABLES.perm2)
    ensures Summed(x, 48, r, 32, TABLES.perm4, k) && Summed(out, 32, s, 32, TABLES.perm5, l)
  {
    hide On, RotatedOf, Perm2Of, Perm4Sum, Perm5Sum, Picked, Summed;
    Perm2Table(k, next);
    Perm4Table(x, r, k);
    Perm5Table(out, s, l);
  }

  /** One more round. */
  lemma Step(key: Bits, start: Halves, n: nat, w: bv64, next: bv64, count: nat, k: bv64, l: bv64, r: bv64, x: bv64,
             s: bv64, out: bv64, p: Eight, v: Eight)
    requires Usable(TABLES) && |key| == 64 && Sized(start) && n < 16 && After(TABLES, key, start, n, w, l, r)
    requires count < 28 && TABLES.sc[n] == count && RoundStep(w, next, count, k, l, r, x, s, out)
    requires BoxStep(x, s, p, v) && Looked(p, v)
    ensures After(TABLES, key, start, n + 1, next, r, out)
  {
    hide On, RoundStep, RotatedOf, Picked, Summed, BoxStep, Looked, Of, After, Substituted;
    StepTables(w, next, count, k, l, r, x, s, out);
    BoxesGive(x, s, p, v);
    Advance(TABLES, key, start, n, w, next, count, k, l, r, x, s, out);
  }

  lemma Rounds1To4(key: Bits, start: Halves)
    requires Usable(TABLES) && |key| == 64 && Sized(start) && After(TABLES, key, start, 0, 0xF0CCAAF556678F,
      0xCC00CCFF, 0xF0AAF0AA)
    ensures After(TABLES, key, start, 4, 0x332ABFC599E3D5, 0xA25C0BF4, 0x77220045)
  {
    hide After, RoundStep, BoxStep, Looked, Usable;
    Shifts();
    Round1();
    Boxes1();
    Looked1();
    Step(key, start, 0, 0xF0CCAAF556678F, 0xE19955FAACCF1E, 1, 0x1B02EFFC7072, 0xCC00CCFF, 0xF0AAF0AA, 0x6117BA866527,
         0x5C82B597, 0xEF4A6544, Eight(12, 24, 15, 45, 48, 35, 10, 51),
         Eight(5, 12, 8, 2, 11, 5, 9, 7));
    Round2();
    Boxes2();
    Looked2();
    Step(key, start, 1, 0xE19955FAACCF1E, 0xC332ABF5599E3D, 1, 0x79AED9DBC9E5, 0xF0AAF0AA, 0xEF4A6544, 0x0C448DEB63EC,
         0xF8D03AAE, 0xCC017709, Eight(17, 2, 9, 22, 45, 43, 23, 38),
         Eight(15, 8, 13, 0, 3, 10, 10, 14));
    Round3();
    Boxes3();
    Looked3();
    Step(key, start, 2, 0xC332ABF5599E3D, 0x0CCAAFF56678F5, 2, 0x55FC8A42CF99, 0xEF4A6544, 0xCC017709, 0xB07C88F827CA,
         0x2710E16F, 0xA25C0BF4, Eight(38, 19, 41, 4, 47, 1, 31, 5),
         Eight(2, 7, 1, 0, 14, 1, 6, 15));
    Round4();
    Boxes4();
    Looked4();
    Step(key, start, 3, 0x0CCAAFF56678F5, 0x332ABFC599E3D5, 2, 0x72ADD6DB351D, 0xCC017709, 0xA25C0BF4, 0x22EF2EDE4AB4,
         0x21ED9F3A, 0x77220045, Eight(4, 39, 46, 39, 59, 34, 37, 42),
         Eight(2, 1, 14, 13, 9, 15, 3, 10));
  }

  lemma Rounds5To8(key: Bits, start: Halves)
    requires Usable(TABLES) && |key| == 64 && Sized(start) && After(TABLES, key, start, 4, 0x332ABFC599E3D5,
      0xA25C0BF4, 0x77220045)
    ensures After(TABLES, key, start, 8, 0x2ABFC339E3D559, 0x064ABA10, 0xD5694B90)
  {
    hide After, RoundStep, BoxStep, Looked, Usable;
    Shifts();
    Round5();
    Boxes5();
    Looked5();
    Step(key, start, 4, 0x332ABFC599E3D5, 0xCCAAFF06678F55, 2, 0x7CEC07EB53A8, 0xA25C0BF4, 0x77220045, 0xC60503EB51A2,
         0x50C831EB, 0x8A4FA637, Eight(56, 32, 10, 17, 45, 58, 3, 33),
         Eight(5, 0, 12, 8, 3, 1, 14, 11));
    Round6();
    Boxes6();
    Looked6();
    Step(key, start, 5, 0xCCAAFF06678F55, 0x32ABFC399E3D55, 2, 0x63A53E507B2F, 0x77220045, 0x8A4FA637, 0xA6E76180BA80,
         0x41F34C3D, 0xE967CD69, Eight(52, 39, 30, 48, 32, 21, 37, 0),
         Eight(4, 1, 15, 3, 4, 12, 3, 13));
    Round7();
    Boxes7();
    Looked7();
    Step(key, start, 6, 0x32ABFC399E3D55, 0xCAAFF0C678F556, 2, 0xEC84B7F618BC, 0x8A4FA637, 0xE967CD69, 0x19AFB813B3EF,
         0x107540AD, 0x064ABA10, Eight(3, 13, 47, 44, 2, 61, 23, 55),
         Eight(1, 0, 7, 5, 4, 0, 10, 13));
    Round8();
    Boxes8();
    Looked8();
    Step(key, start, 7, 0xCAAFF0C678F556, 0x2ABFC339E3D559, 2, 0xF78A3AC13BFB, 0xE967CD69, 0x064ABA10, 0xF7486F9E7B5B,
         0x6C187CAE, 0xD5694B90, Eight(62, 42, 48, 55, 51, 51, 54, 29),
         Eight(6, 12, 1, 8, 7, 12, 10, 14));
  }

  lemma Rounds9To12(key: Bits, start: Halves)
    requires Usable(TABLES) && |key| == 64 && Sized(start) && After(TABLES, key, start, 8, 0x2ABFC339E3D559,
      0x064ABA10, 0xD5694B90)
    ensures After(TABLES, key, start, 12, 0x5FE19951EAACCF, 0xC5783C78, 0x75BD1858)
  {
    hide After, RoundStep, BoxStep, Looked, Usable;
    Shifts();
    Round9();
    Boxes9();
    Looked9();
    Step(key, start, 8, 0x2ABFC339E3D559, 0x557F8663C7AAB3, 1, 0xE0DBEBEDE781, 0x064ABA10, 0xD5694B90, 0x8A70B9489B20,
         0x110C5777, 0x247CC67A, Eight(33, 51, 1, 60, 9, 20, 38, 32),
         Eight(1, 1, 0, 12, 5, 7, 7, 7));
    Round10();
    Boxes10();
    Looked10();
    Step(key, start, 9, 0x557F8663C7AAB3, 0x55FE199F1EAACC, 2, 0xB1F347BA464F, 0xD5694B90, 0x247CC67A, 0xA170BEDA85BB,
         0xDA045275, 0xB7D5D7B2, Eight(36, 27, 1, 47, 43, 36, 11, 61),
         Eight(13, 10, 0, 4, 5, 2, 7, 5));
    Round11();
    Boxes11();
    Looked11();
    Step(key, start, 10, 0x55FE199F1EAACC, 0x57F8665C7AAB33, 2, 0x215FD3DED386, 0x247CC67A, 0xB7D5D7B2, 0x7BA178342E23,
         0x7305D101, 0xC5783C78, Eight(15, 45, 18, 44, 22, 1, 44, 49),
         Eight(7, 3, 0, 5, 13, 1, 0, 1));
    Round12();
    Boxes12();
    Looked12();
    Step(key, start, 11, 0x57F8665C7AAB33, 0x5FE19951EAACCF, 2, 0x7571F59467E9, 0xB7D5D7B2, 0xC5783C78, 0x15DA058BE418,
         0x7B8B2635, 0x75BD1858, Eight(18, 30, 36, 18, 33, 47, 8, 12),
         Eight(7, 11, 8, 11, 2, 6, 3, 5));
  }

  lemma Rounds13To16(key: Bits, start: Halves)
    requires Usable(TABLES) && |key| == 64 && Sized(start) && After(TABLES, key, start, 12, 0x5FE19951EAACCF,
      0xC5783C78, 0x75BD1858)
    ensures After(TABLES, key, start, 16, 0xF0CCAAF556678F, 0x43423234, 0x0A4CD995)
  {
    hide After, RoundStep, BoxStep, Looked, Usable;
    Shifts();
    Round13();
    Boxes13();
    Looked13();
    Step(key, start, 12, 0x5FE19951EAACCF, 0x7F866557AAB33C, 2, 0x97C5D1FABA41, 0xC5783C78, 0x75BD1858, 0xAD782B75B8B1,
         0x9AD18B4F, 0x18C3155A, Eight(53, 27, 32, 53, 30, 29, 33, 56),
         Eight(9, 10, 13, 1, 8, 11, 4, 15));
    Round14();
    Boxes14();
    Looked14();
    Step(key, start, 13, 0x7F866557AAB33C, 0xFE19955EAACCF1, 2, 0x5F43B7F2E73A, 0x75BD1858, 0x18C3155A, 0x5055B1784DCE,
         0x64799AF1, 0xC28C960D, Eight(10, 18, 11, 56, 15, 2, 59, 7),
         Eight(6, 4, 7, 9, 9, 10, 15, 1));
    Round15();
    Boxes15();
    Looked15();
    Step(key, start, 14, 0xFE19955EAACCF1, 0xF866557AAB33C7, 2, 0xBF918D3D3F0A, 0x18C3155A, 0xC28C960D, 0x5FC5D477FF51,
         0xB2E88D3C, 0x43423234, Eight(27, 46, 27, 10, 30, 63, 62, 24),
         Eight(11, 2, 14, 8, 8, 13, 3, 12));
    Round16();
    Boxes16();
    Looked16();
    Step(key, start, 15, 0xF866557AAB33C7, 0xF0CCAAF556678F, 1, 0xCB3D8B0E17F5, 0xC28C960D, 0x43423234, 0xEB578F14565D,
         0xA7832429, 0x0A4CD995, Eight(45, 58, 15, 23, 18, 18, 28, 30),
         Eight(10, 7, 8, 3, 2, 4, 2, 9));
  }

  lemma StartOf(t: Tables, x: Bits, key: Bits, b: bv64, w: bv64, l: bv64, r: bv64)
    requires Usable(t) && |x| == |key| == 64
    requires Permute(key, t.perm1) == Of(56, w) && Permute(x, t.perm3) == Of(64, b) && JoinedOf(b, l, r)
    ensures After(t, key, Halves(Of(32, l), Of(32, r)), 0, w, l, r)
    ensures Permute(x, t.perm3)[..32] == Of(32, l) && Permute(x, t.perm3)[32..] == Of(32, r)
  {
    hide On, Of, Permute;
    JoinIs(b, l, r);
    var e := Permute(key, t.perm1);
    assert e[..28] + e[28..] == e;
    assert Schedule(t, key)[..0] == [];
  }

  lemma EndOf(t: Tables, x: Bits, key: Bits, w: bv64, l: bv64, r: bv64, b: bv64, out: bv64, start: Halves)
    requires Usable(t) && |x| == |key| == 64 && Sized(start) && After(t, key, start, 16, w, l, r) && JoinedOf(b, r, l)
    requires Permute(x, t.perm3)[..32] == start.l && Permute(x, t.perm3)[32..] == start.r
    requires Permute(Of(64, b), t.perm6) == Of(64, out)
    ensures Cipher(t, x, key, true) == Of(64, out)
  {
    hide On, Of, Permute, Rounds;
    JoinIs(b, r, l);
    assert Schedule(t, key)[..16] == Schedule(t, key);
  }

  lemma SplitBlock()
    ensures JoinedOf(0xCC00CCFFF0AAF0AA, 0xCC00CCFF, 0xF0AAF0AA)
  {
    Digits(0xCC00CCFFF0AAF0AA);
    Digits(0xCC00CCFF);
    Digits(0xF0AAF0AA);
    hide On;
  }

  lemma SplitAnswer()
    ensures JoinedOf(0x0A4CD99543423234, 0x0A4CD995, 0x43423234)
  {
    Digits(0x0A4CD99543423234);
    Digits(0x0A4CD995);
    Digits(0x43423234);
    hide On;
  }

  /** The answer, for a key of which perm1 chooses these bits. */
  lemma AnswerFor(key: Bits)
    requires |key| == 64 && Selects(PERM1, 56, 64) && Permute(key, PERM1) == Of(56, 0xF0CCAAF556678F)
    ensures Usable(TABLES)
    ensures Cipher(TABLES, Of(64, 0x0123456789ABCDEF), key, true) == Of(64, 0x85E813540F0AB405)
  {
    SourceTables();
    hide On, Of, Permute, Usable, Inverse, Cipher, After, JoinedOf, PickedFrom, InRange;
    var x := Of(64, 0x0123456789ABCDEF);
    Chosen();
    SplitBlock();
    SplitAnswer();
    StartOf(TABLES, x, key, 0xCC00CCFFF0AAF0AA, 0xF0CCAAF556678F, 0xCC00CCFF, 0xF0AAF0AA);
    var start := Halves(Of(32, 0xCC00CCFF), Of(32, 0xF0AAF0AA));
    Rounds1To4(key, start);
    Rounds5To8(key, start);
    Rounds9To12(key, start);
    Rounds13To16(key, start);
    EndOf(TABLES, x, key, 0xF0CCAAF556678F, 0x43423234, 0x0A4CD995, 0x0A4CD99543423234, 0x85E813540F0AB405, start);
  }

  lemma KnownAnswer()
    ensures Usable(TABLES)
    ensures Cipher(TABLES, Of(64, 0x0123456789ABCDEF), Of(64, 0x133457799BBCDFF1), true) == Of(64, 0x85E813540F0AB405)
  {
    SourceTables();
    hide On, Of, Permute, Usable, Inverse, Cipher;
    Chosen();
    AnswerFor(Of(64, 0x133457799BBCDFF1));
  }

  lemma Chosen()
    requires Usable(TABLES)
    ensures Permute(Of(64, 0x133457799BBCDFF1), PERM1) == Of(56, 0xF0CCAAF556678F)
    ensures Permute(Of(64, 0x0123456789ABCDEF), PERM3) == Of(64, 0xCC00CCFFF0AAF0AA)
    ensures Permute(Of(64, 0x0A4CD99543423234), PERM6) == Of(64, 0x85E813540F0AB405)
  {
    hide On, Of, Permute;
    KeyLeft();
    KeyRight();
    InitialLeft();
    InitialRight();
    FinalLeft();
    FinalRight();
    PickedIs(0xF0CCAAF556678F, 56, 0x133457799BBCDFF1, 64, PERM1);
    PickedIs(0xCC00CCFFF0AAF0AA, 64, 0x0123456789ABCDEF, 64, PERM3);
    PickedIs(0x85E813540F0AB405, 64, 0x0A4CD99543423234, 64, PERM6);
  }
}
