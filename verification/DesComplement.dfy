/**
  The complementation property of DES: the cipher of the complement under the complement of
  the key is the complement of the cipher.  It holds because a round begins by adding the
  subkey to what it works on.
 */
module DesComplement {
  import opened DesTables
  import opened Des

  function Not(s: Bits): (t: Bits)
    ensures |t| == |s|
  {
    seq(|s|, i requires 0 <= i < |s| => !s[i])
  }

  function NotHalves(h: Halves): Halves {
    Halves(Not(h.l), Not(h.r))
  }

  function NotAll(ks: seq<Bits>): (ns: seq<Bits>)
    ensures |ns| == |ks| && (Subkeys(ks) ==> Subkeys(ns))
  {
    seq(|ks|, i requires 0 <= i < |ks| => Not(ks[i]))
  }

  lemma PermuteNot(s: Bits, p: seq<nat>)
    requires InRange(p, |s|)
    ensures Permute(Not(s), p) == Not(Permute(s, p))
  {
  }

  lemma RotateNot(s: Bits, count: nat)
    requires count <= |s|
    ensures Rotate(Not(s), count) == Not(Rotate(s, count))
  {
  }

  /** Added to the complement of the subkey, the complement gives the same. */
  lemma XorNot(a: Bits, b: Bits)
    requires |a| == |b|
    ensures Xor(Not(a), Not(b)) == Xor(a, b) && Xor(Not(a), b) == Not(Xor(a, b))
  {
  }

  lemma JoinNot(a: Bits, b: Bits)
    ensures Not(a + b) == Not(a) + Not(b)
  {
  }

  lemma CutNot(s: Bits, n: nat)
    requires n <= |s|
    ensures Not(s)[..n] == Not(s[..n]) && Not(s)[n..] == Not(s[n..])
  {
  }

  lemma {:induction false} TurnedNot(t: Tables, half: Bits, n: nat)
    requires Usable(t) && |half| == 28 && n <= 16
    ensures Turned(t, Not(half), n) == Not(Turned(t, half, n))
  {
    if n > 0 {
      TurnedNot(t, half, n - 1);
      RotateNot(Turned(t, half, n - 1), t.sc[n - 1]);
    }
  }

  lemma SubkeyNot(t: Tables, key: Bits, i: nat)
    requires Usable(t) && |key| == 64 && i < 16
    ensures Subkey(t, Not(key), i) == Not(Subkey(t, key, i))
  {
    hide Not, Permute, Turned;
    var e := Permute(key, t.perm1);
    PermuteNot(key, t.perm1);
    CutNot(e, 28);
    TurnedNot(t, e[..28], i + 1);
    TurnedNot(t, e[28..], i + 1);
    JoinNot(Turned(t, e[..28], i + 1), Turned(t, e[28..], i + 1));
    PermuteNot(Turned(t, e[..28], i + 1) + Turned(t, e[28..], i + 1), t.perm2);
  }

  lemma ScheduleNot(t: Tables, key: Bits)
    requires Usable(t) && |key| == 64
    ensures Schedule(t, Not(key)) == NotAll(Schedule(t, key))
    ensures Reversed(Schedule(t, Not(key))) == NotAll(Reversed(Schedule(t, key)))
  {
    hide Not, Subkey;
    forall i | 0 <= i < 16 ensures Schedule(t, Not(key))[i] == Not(Schedule(t, key)[i]) {
      SubkeyNot(t, key, i);
    }
  }

  lemma RoundNot(t: Tables, h: Halves, k: Bits)
    requires Usable(t) && Sized(h) && |k| == 48
    ensures Round(t, NotHalves(h), Not(k)) == NotHalves(Round(t, h, k))
  {
    hide Not, Permute, Substituted, Xor;
    PermuteNot(h.r, t.perm4);
    XorNot(Permute(h.r, t.perm4), k);
    XorNot(h.l, Scramble(t, h.r, k));
  }

  lemma {:induction false} RoundsNot(t: Tables, h: Halves, ks: seq<Bits>)
    requires Usable(t) && Sized(h) && Subkeys(ks)
    ensures Rounds(t, NotHalves(h), NotAll(ks)) == NotHalves(Rounds(t, h, ks))
    decreases |ks|
  {
    hide Round, Not, Usable;
    if ks != [] {
      var n := |ks| - 1;
      RoundsNot(t, h, ks[..n]);
      assert NotAll(ks)[..n] == NotAll(ks[..n]);
      RoundNot(t, Rounds(t, h, ks[..n]), ks[n]);
    }
  }

  lemma CryptNot(t: Tables, x: Bits, ks: seq<Bits>)
    requires Usable(t) && |x| == 64 && Subkeys(ks)
    ensures Crypt(t, Not(x), NotAll(ks)) == Not(Crypt(t, x, ks))
  {
    hide Not, NotAll, Permute, Rounds;
    var b := Permute(x, t.perm3);
    PermuteNot(x, t.perm3);
    CutNot(b, 32);
    var h := Halves(b[..32], b[32..]);
    var g := Rounds(t, h, ks);
    RoundsNot(t, h, ks);
    JoinNot(g.r, g.l);
    PermuteNot(g.r + g.l, t.perm6);
  }

  /** In both directions, for every key and block. */
  lemma Complementation(t: Tables, x: Bits, key: Bits, forw: bool)
    requires Usable(t) && |x| == 64 && |key| == 64
    ensures Cipher(t, Not(x), Not(key), forw) == Not(Cipher(t, x, key, forw))
  {
    hide Not, NotAll, Crypt, Schedule, Reversed;
    ScheduleNot(t, key);
    CryptNot(t, x, if forw then Schedule(t, key) else Reversed(Schedule(t, key)));
  }
}
